# Medical chatbot: response selection and book chunking, in Dafny

This project models the deterministic string logic of a medical chatbot
repository. It covers two parts:

- **The four chatbot variants.** `MedicalChatbot` in `chatbot/working_chain.py`,
  `GroqMedicalChatbot` in `chatbot/groq_chain.py`, `EnhancedMedicalChatbot` in
  `chatbot/chain.py` and `MedicalChatbot` in `chatbot/updated_chain.py`. Each
  `get_response` first scans an ordered emergency table: the first trigger
  phrase found in the query wins and its alert is returned as it is. Otherwise
  the bot builds an answer from retrieved documents, from the hosted model's
  reply, or from a keyword table in priority order. It clips the answer and
  appends a disclaimer.
- **The ingestion chunker of `chatbot/book_processor.py`.** It walks the
  alternating content/heading split of the encyclopedia, accumulates chunks
  and emits them at length thresholds. When there are few disease chunks, it
  falls back to filtering paragraphs by length and a denylist.

The outside services are inputs. `Inputs.Retrieval` is the vector store's
answer for a query: no store, a ranking of document texts, or a search that
raises. `similarity_search(query, k)` is the first `k` documents of that
ranking. The hosted model is a function from prompt to `Inputs.Completion`:
a reply, or a failed call.

Modules:

- `Text`: the `str` operations used: ASCII `lower`, `strip` and `split` on
  Python's whitespace, `in`, slicing, `join`, and `re.split(r'[.!?]+', ...)` as an explicit function.
- `Rules`: the first-match keyword table. Both the emergency dicts and the
  `if`/`elif` keyword chains are instances of it.
- `WorkingChain`, `GroqChain`, `Chain`, `UpdatedChain`: one module per chatbot.
- `BookProcessor`: the chunker.

The loops the source runs step by step are methods proved against
specification functions:

- `WorkingChain.ExtractMostRelevantPart`: the collection loop with its early
  `break`.
- `GroqChain.GetMedicalContext`: the line-cleaning loop.
- `GroqChain.GroqMedicalChatbot.InitializeGroq`: the model probe, which
  updates the bot's fields.
- `BookProcessor.SplitDiseaseContent`: the chunk accumulator.
- `BookProcessor.BetterMedicalSplit`: the two loops of `_better_medical_split`.

The properties are proved about those specification functions.

## Model

| member | source | states |
|---|---|---|
| Text.Lower | chatbot/working_chain.py:122 | `lower()` keeps the length and lower-cases each ASCII letter independently |
| Text.LowerIdempotent | chatbot/updated_chain.py:104 | lower-casing twice is lower-casing once |
| Text.Strip | chatbot/working_chain.py:172 | `strip()` gives the block of the input that starts after its leading whitespace and is followed only by whitespace, and that neither starts nor ends with whitespace |
| Text.StripEmptyIffBlank | chatbot/book_processor.py:124 | `section.strip()` is empty exactly when the section is all whitespace |
| Text.StripKeepsTrimmedHead | chatbot/book_processor.py:129 | a text that begins with a stripped name still begins with it after `strip()` |
| Text.ContainsAfterStrip | chatbot/groq_chain.py:184 | whatever occurs in the stripped, lower-cased line also occurs in the lower-cased original line |
| Text.Take | chatbot/groq_chain.py:187 | `s[:n]` is a prefix of `s` of length `min(len(s), n)` |
| Text.Clip | chatbot/working_chain.py:190 | `s[:n] + ("..." if len(s) > n else "")` is `s` itself when short enough, else its first `n` characters and "...", and never longer than `n + 3` |
| Text.Join | chatbot/working_chain.py:181 | `sep.join(xs)`: the parts with one separator between each pair; its length and growth are stated in `JoinLength` and `JoinSnoc` |
| Text.JoinLength | chatbot/working_chain.py:181 | the length of `sep.join(xs)` is the sum of the parts' lengths plus one separator between each pair |
| Text.JoinSnoc | chatbot/working_chain.py:178-181 | joining one more sentence appends the separator and that sentence |
| Text.SplitOn | chatbot/groq_chain.py:183 | `text.split('\n')` always yields at least one piece |
| Text.SplitOnRoundTrip | chatbot/groq_chain.py:183 | the pieces of `split('\n')` contain no line feed, and joining them with line feeds gives the text back |
| Text.Words | chatbot/working_chain.py:212-213 | `split()` yields non-empty runs without whitespace |
| Text.WordsFromAreRuns | chatbot/working_chain.py:212-213 | every word listed from index `p` on is a maximal run of non-whitespace starting at `p` or later |
| Text.RunsAreWordsFrom | chatbot/working_chain.py:212-213 | every maximal run of non-whitespace starting at `p` or later is listed |
| Text.WordsAreMaximalRuns | chatbot/working_chain.py:212-213 | the words of `split()` are exactly the maximal runs of non-whitespace in the text |
| Text.DropPunct | chatbot/working_chain.py:166 | a maximal run of `.`, `!`, `?` is removed from the front and what remains does not start with one |
| Text.SplitSentences | chatbot/working_chain.py:166 | `re.split(r'[.!?]+', s)` yields at least one piece |
| Text.SentencesHaveNoPunct | chatbot/working_chain.py:166 | no piece of the sentence split contains `.`, `!` or `?` |
| Text.SentencesKeepText | chatbot/working_chain.py:166 | the pieces of the sentence split, concatenated, are exactly the text with its `.`, `!`, `?` removed |
| Text.PunctRuns | chatbot/working_chain.py:166 | the separators the split cuts at are non-empty runs of `.`, `!`, `?` |
| Text.SentencesRoundTrip | chatbot/working_chain.py:166 | there is one piece more than there are maximal punctuation runs, and the pieces with the runs between them give the text back; with `SentencesHaveNoPunct` this fixes every piece |
| Text.StripEach | chatbot/groq_chain.py:184 | `[s.strip() for s in xs]` keeps length and order and strips each element |
| Text.StripEachSnoc | chatbot/book_processor.py:104-105 | stripping one more element appends its stripped form |
| Text.Qualifying | chatbot/groq_chain.py:184 | the list comprehension keeps exactly the elements that pass the test, and only those |
| Text.QualifyingSnoc | chatbot/book_processor.py:104-109 | filtering one more element appends it exactly when it passes |
| Text.FlattenAppend | chatbot/groq_chain.py:180-185 | the cleaned lines of earlier documents come before those of later ones |
| Text.FirstLongerThan | chatbot/working_chain.py:188-190 | the `for sentence ...: if len(sentence) > n: return` search finds the first piece longer than `n`, and nothing exactly when there is none |
| Text.ConcatMember | chatbot/book_processor.py:98 | every document obtained by `extend` comes from one of the extended lists |
| Text.ConcatPrefixStep | chatbot/book_processor.py:98 | extending by the next list appends that list |
| Rules.Table | chatbot/working_chain.py:222-250 | encoding helper: builds the table form of a keyword chain, whose row `i` has keyword group `i` and answer `i` |
| Rules.Triggers | chatbot/working_chain.py:256-267 | encoding helper: builds the table form of an emergency dict, whose row `i` has trigger `i` alone and alert `i`, in insertion order |
| Rules.Scan | chatbot/working_chain.py:269-273 | nothing exactly when no row fires, otherwise the answer of the first row that fires |
| Rules.TriggerScan | chatbot/working_chain.py:269-273 | on a one-trigger-per-row table: nothing iff no trigger occurs in the text, otherwise the answer of the first trigger that occurs |
| Rules.ScanIgnoresLaterRows | chatbot/updated_chain.py:87-100 | once a row fires, rows after it are never consulted |
| Inputs.TopK | chatbot/working_chain.py:132 | `similarity_search(k)` gives a prefix of the ranking of at most `k` documents, the whole ranking when it is shorter |
| WorkingChain.CheckEmergency | chatbot/working_chain.py:252-273 | an alert always ends with the "📞 Call emergency services!" suffix |
| WorkingChain.EmergencyIsFirstTrigger | chatbot/working_chain.py:256-273 | an alert iff one of the ten triggers occurs in the lower-cased query; it is the first such trigger's alert plus the suffix |
| WorkingChain.FirstTriggerWins | chatbot/working_chain.py:256-271 | "heart attack and chest pain" gets the chest-pain alert, because that trigger comes first in the dict |
| WorkingChain.IsRelevant | chatbot/working_chain.py:195-216 | `_is_relevant`: the cue words of the first question type found, else two shared words; the dispatch is stated in `RelevanceDispatch` |
| WorkingChain.RelevanceDispatch | chatbot/working_chain.py:195-216 | `_is_relevant` uses the cue words of the first question type found, in the order 'what is' > 'symptoms' > 'treatment'/'treat' > 'cause' > 'diagnos'; only with none of them does it need two shared words |
| WorkingChain.QuestionKind | chatbot/working_chain.py:200-209 | which question-type row answers a question, for each priority case |
| WorkingChain.Collected | chatbot/working_chain.py:171-182 | the collection loop as a function: add each qualifying stripped sentence, stop once the join passes 200; its properties are `CollectedExtends`, `CollectedEnds` and `CollectedWithin` |
| WorkingChain.QualifyingSentences | chatbot/working_chain.py:171-178 | every sentence the loop may collect is stripped, at least 20 characters long and relevant |
| WorkingChain.CollectedExtends | chatbot/working_chain.py:171-182 | the loop only appends: the collected sentences are, in source order, a prefix of the qualifying stripped sentences |
| WorkingChain.CollectedEnds | chatbot/working_chain.py:180-182 | the loop ends either with every qualifying sentence collected or with a joined length above 200 |
| WorkingChain.CollectedWithin | chatbot/working_chain.py:180-182 | before the last sentence was added the joined length was at most 200, so the loop stops at the first crossing |
| WorkingChain.RelevantSentences | chatbot/working_chain.py:166-185 | the collected sentences are a prefix of the qualifying ones in source order; without the last one they join to at most 200 characters; collection stops by passing 200 or by exhausting the qualifying ones; nothing is collected iff none qualifies |
| WorkingChain.FallbackPart | chatbot/working_chain.py:187-193 | the first unstripped sentence longer than 50, clipped to 400 with "..." iff longer, else the content clipped the same way; never longer than 403 |
| WorkingChain.NoRelevantSentence | chatbot/working_chain.py:184-193 | with no qualifying sentence the answer is the fallback |
| WorkingChain.MostRelevantPart | chatbot/working_chain.py:161-193 | `_extract_most_relevant_part`: the collected sentences joined by spaces, else the fallback; stated in `RelevantSentences`, `NoRelevantSentence` and `FallbackPart` |
| WorkingChain.ExtractMostRelevantPart | chatbot/working_chain.py:161-193 | the loop with its early `break` computes the specified relevant part |
| WorkingChain.FormatConciseResponse | chatbot/working_chain.py:148-159 | the answer is at most 500 characters: the extracted part when it fits, else its first 497 characters and "..." |
| WorkingChain.ConciseClip | chatbot/working_chain.py:156-157 | the 500-character cut: unchanged up to 500, else 497 characters and "..." |
| WorkingChain.ConciseFallback | chatbot/working_chain.py:218-250 | 'diabetes' gives the diabetes answer; otherwise the first keyword group that occurs in the lower-cased query decides; with none, the default invitation |
| WorkingChain.GetResponse | chatbot/working_chain.py:121-146 | an emergency alert is returned unchanged; a failing search gives the error reply; every other answer ends with the disclaimer |
| WorkingChain.AnswerSource | chatbot/working_chain.py:129-142 | with documents, the concise answer from them plus the disclaimer; with no store or no documents, the keyword answer plus the disclaimer |
| WorkingChain.EmergencyIgnoresStore | chatbot/working_chain.py:121-127 | with an emergency the store's answer makes no difference and the reply carries no disclaimer |
| GroqChain.FirstReady | chatbot/groq_chain.py:48-63 | the first model whose probe reply contains "READY", or none exactly when no model passes |
| GroqChain.GroqMedicalChatbot.constructor | chatbot/groq_chain.py:8-28 | the hosted model is on iff the key is usable and some model passes the probe; the client is the first passing model, else the last model tried, and with an unusable key there is none |
| GroqChain.GroqMedicalChatbot.InitializeGroq | chatbot/groq_chain.py:29-81 | an unusable key (missing, empty or not starting with "gsk_") changes nothing; otherwise the scan stops at the first model answering "READY" and switches the hosted model on; if none answers, the client is left on the last model |
| GroqChain.GroqMedicalChatbot.GetResponse | chatbot/groq_chain.py:121-138 | an emergency alert is returned unchanged; otherwise the hosted-model answer when it is on and the basic one when it is off, ending with the disclaimer either way |
| GroqChain.EmergencyShortCircuits | chatbot/groq_chain.py:121-127 | with an emergency neither the bot's state nor the hosted model makes a difference, and there is no disclaimer |
| GroqChain.CheckEmergency | chatbot/groq_chain.py:237-249 | an alert always ends with the "📞 Call emergency services!" suffix |
| GroqChain.EmergencyIsFirstTrigger | chatbot/groq_chain.py:237-249 | an alert iff 'chest pain', 'heart attack' or 'stroke' occurs; the first of them in table order decides |
| GroqChain.KeepLine | chatbot/groq_chain.py:184 | the filter of the comprehension: stripped longer than 20 and no 'contents' in the lower-cased line |
| GroqChain.KeptLines | chatbot/groq_chain.py:183-184 | the cleaned lines of one document; stated in `KeptLinesClean` |
| GroqChain.CleanContent | chatbot/groq_chain.py:179-185 | the cleaned lines of all documents in order; stated in `CleanLinesKept` and `DocumentOrder` |
| GroqChain.KeptLinesClean | chatbot/groq_chain.py:183-184 | every cleaned line of a document is stripped, longer than 20 characters and free of 'contents' in any case |
| GroqChain.CleanLinesKept | chatbot/groq_chain.py:179-185 | the same holds for the cleaned lines of all the documents |
| GroqChain.DocumentOrder | chatbot/groq_chain.py:180-185 | cleaned lines keep document order |
| GroqChain.MedicalContext | chatbot/groq_chain.py:170-191 | reference text exists iff the store ranks at least one document; it is a prefix of the joined cleaned lines, equal to them when they fit and exactly 800 characters when they do not |
| GroqChain.GetMedicalContext | chatbot/groq_chain.py:170-191 | the `extend` loop over the two best documents computes the specified reference text |
| GroqChain.GroqPrompt | chatbot/groq_chain.py:146-161 | the prompt starts with the question and ends with the fixed request; without reference text it has no reference block; with it, its length bounds the quoted text at 500 characters |
| GroqChain.PromptQuotesContext | chatbot/groq_chain.py:152-153 | with reference text, the reference block with its first 500 characters follows the question |
| GroqChain.GroqEnhancedResponse | chatbot/groq_chain.py:140-168 | the model's reply plus the disclaimer; when the call fails, exactly the basic answer |
| GroqChain.TopicsScan | chatbot/groq_chain.py:217-224 | the single-topic rows fire in the order 'diabetes', 'heart', 'cancer' |
| GroqChain.ContextAnswer | chatbot/groq_chain.py:226-235 | the first sentence of the reference text longer than 40, cut to 250, plus "..." and the disclaimer; the default answer without reference text or such a sentence; always ending with the disclaimer |
| GroqChain.BasicResponse | chatbot/groq_chain.py:193-235 | 'diabetes' with 'compare' beats 'diabetes', which beats 'heart', then 'cancer', then the reference text; every answer ends with the disclaimer |
| Chain.CheckEmergency | chatbot/chain.py:184-198 | an alert always ends with the "📞 Call emergency services!" suffix |
| Chain.EmergencyIsFirstTrigger | chatbot/chain.py:184-198 | an alert iff one of the five triggers occurs; the first in table order decides |
| Chain.MedicalContext | chatbot/chain.py:122-136 | reference text exists iff the store ranks at least one document; it is a prefix of the three best documents joined by blank lines, all of them when they fit and exactly 2000 characters when they do not |
| Chain.ContextStartsWithBestDocument | chatbot/chain.py:128-132 | the reference text and the best document agree on their common beginning |
| Chain.BasicResponse | chatbot/chain.py:164-182 | with reference text, the first sentence longer than 50, clipped to 400 with "..." iff longer; without it, or without such a sentence, the keyword answer |
| Chain.KeywordAnswer | chatbot/chain.py:174-182 | 'diabetes' > 'heart' > 'cancer' > default on the lower-cased question |
| Chain.EnhancedPrompt | chatbot/chain.py:141-154 | the prompt quotes the whole reference text and then the question, at fixed offsets |
| Chain.EnhancedResponse | chatbot/chain.py:138-162 | the model's reply as it is; when the call fails, exactly the basic answer for the same reference text |
| Chain.GetResponse | chatbot/chain.py:97-120 | an emergency alert is returned unchanged; the hosted model is asked only when it is on and the reference text is non-empty, otherwise the basic answer is used; either way the disclaimer follows |
| Chain.EmergencyShortCircuits | chatbot/chain.py:97-103 | with an emergency neither the store nor the hosted model makes a difference, and there is no disclaimer |
| Chain.LocalModeIgnoresModel | chatbot/chain.py:109-114 | with the hosted model off, its behaviour makes no difference |
| Chain.FailedCallFallsBack | chatbot/chain.py:156-162 | a failed call gives the local-mode answer |
| UpdatedChain.CheckEmergency | chatbot/updated_chain.py:102-121 | an alert always ends with the "📞 Call your local emergency number RIGHT NOW!" suffix |
| UpdatedChain.EmergencyIsFirstTrigger | chatbot/updated_chain.py:102-121 | an alert iff one of the eight triggers occurs in the lower-cased query; the first in table order decides |
| UpdatedChain.EmergencyIgnoresCase | chatbot/updated_chain.py:104 | the check lower-cases the query itself, so upper case makes no difference |
| UpdatedChain.FormatMedicalResponse | chatbot/updated_chain.py:72-81 | the first document, followed by "Additional information: " and the second document when there is one |
| UpdatedChain.FurtherDocumentsIgnored | chatbot/updated_chain.py:77-81 | documents after the second make no difference |
| UpdatedChain.FallbackResponse | chatbot/updated_chain.py:83-100 | headache/'head pain' > fever/temperature > cold/flu/cough > pain/hurt > default on the lower-cased query |
| UpdatedChain.HeadPainIsHeadache | chatbot/updated_chain.py:87-97 | "I have head pain" gets the headache answer, not the pain answer |
| UpdatedChain.GetResponse | chatbot/updated_chain.py:49-70 | an emergency alert is returned unchanged; a failing search gives the generic reply; with documents, the formatted documents plus the disclaimer; without, the keyword answer plus the disclaimer |
| UpdatedChain.EmergencyShortCircuits | chatbot/updated_chain.py:49-53 | with an emergency the store makes no difference and there is no disclaimer |
| BookProcessor.Step | chatbot/book_processor.py:122-132 | one turn of the section loop: a non-blank content section is appended; a header emits the chunk when it is longer than 300 and starts "name - Header", else appends the header; stated in `StepLayout` |
| BookProcessor.WalkTo | chatbot/book_processor.py:120-132 | the accumulator after the first `n` sections; stated in `CurrentOpensChunk`, `RawsOpen` and `WalkLayout` |
| BookProcessor.EntryRaws | chatbot/book_processor.py:122-136 | the emitted chunks plus the last one when it is longer than 100; stated in `EntryRawsOpen` and `EntryRawsLayout` |
| BookProcessor.DiseaseChunks | chatbot/book_processor.py:113-138 | `_split_disease_content`: the chunks stripped; stated in `DiseaseChunksLayout` and `ChunksStartWithName` |
| BookProcessor.SplitDiseaseContent | chatbot/book_processor.py:113-138 | the accumulator loop computes the specified chunks of one entry |
| BookProcessor.Dropped | chatbot/book_processor.py:135-136 | the tail that is not emitted is at most 100 characters |
| BookProcessor.CurrentOpensChunk | chatbot/book_processor.py:120-132 | the chunk being built always begins with "name\n\n" or "name - Header\n\n" |
| BookProcessor.RawsOpen | chatbot/book_processor.py:127-130 | a chunk is emitted at a header only when it is longer than 300 characters, and it begins with the name |
| BookProcessor.StepEmits | chatbot/book_processor.py:122-132 | a turn emits nothing, or, at a header, the chunk it held when that is longer than 300 characters; emitted chunks stay opened by the name |
| BookProcessor.WalkLayout | chatbot/book_processor.py:122-132 | the emitted chunks and the one being built, concatenated, are the laid-out text: every non-blank content segment and every header once, in order |
| BookProcessor.StepLayout | chatbot/book_processor.py:123-132 | one turn adds exactly its section's piece to the laid-out text |
| BookProcessor.DiseaseChunksLayout | chatbot/book_processor.py:122-136 | every chunk before stripping begins with the name and is longer than 100; together with a dropped tail of at most 100 characters they are exactly the laid-out text |
| BookProcessor.EntryRawsOpen | chatbot/book_processor.py:127-136 | every chunk text of an entry, the trailing one included, begins with the name and is longer than 100 characters |
| BookProcessor.EntryRawsLayout | chatbot/book_processor.py:122-136 | nothing is lost or repeated apart from the dropped tail |
| BookProcessor.ChunksStartWithName | chatbot/book_processor.py:120-136 | with a stripped disease name, every chunk begins with that name |
| BookProcessor.OpensChunkStartsWithName | chatbot/book_processor.py:120-130 | "name\n\n..." and "name - Header\n\n..." both begin with the name |
| BookProcessor.KeepParagraph | chatbot/book_processor.py:106-108 | the paragraph filter: 201 to 1499 characters and none of the denylisted words in the lower-cased text |
| BookProcessor.ParagraphDocs | chatbot/book_processor.py:103-109 | the paragraph fallback; stated in `ParagraphKept` and `ParagraphDocsSnoc` |
| BookProcessor.ParagraphKept | chatbot/book_processor.py:103-109 | a fallback document is exactly a stripped paragraph of 201 to 1499 characters containing none of 'contents', 'index', 'volume', 'chapter' in any case |
| BookProcessor.EntryChunks | chatbot/book_processor.py:90-98 | one heading's chunks: those of its entry when the next section is longer than 100, else none; stated in `EntryAt` and `EntryChunksNamed` |
| BookProcessor.EntryAt | chatbot/book_processor.py:89-98 | heading `j` is the section at index `2j + 1`; its entry is chunked only when the following section is longer than 100 characters |
| BookProcessor.Entries | chatbot/book_processor.py:89 | there is one entry per odd index |
| BookProcessor.FallbackAppends | chatbot/book_processor.py:101-109 | with 50 or more disease chunks they are all there is; with fewer, the kept paragraphs are appended after them |
| BookProcessor.HeadingDocsNamed | chatbot/book_processor.py:89-98 | every disease chunk begins with the stripped text of an odd-indexed section whose next section is longer than 100 characters |
| BookProcessor.EntryChunksNamed | chatbot/book_processor.py:91-98 | each chunk of one heading's entry begins with that heading, stripped |
| BookProcessor.BetterSplit | chatbot/book_processor.py:79-111 | `_better_medical_split`: the disease chunks, followed by the paragraph fallback when there are fewer than 50; stated in `FallbackAppends` and `HeadingDocsNamed` |
| BookProcessor.BetterMedicalSplit | chatbot/book_processor.py:79-111 | the two loops compute the disease chunks, followed by the paragraph fallback when there are fewer than 50 |
| BookProcessor.SplitDiseases | chatbot/book_processor.py:89-98 | the heading loop concatenates the entries' chunks in heading order |
| BookProcessor.ChunkEntry | chatbot/book_processor.py:90-98 | one turn of the heading loop produces that heading's entry |
| BookProcessor.AppendParagraphs | chatbot/book_processor.py:103-109 | the paragraph loop appends the kept stripped paragraphs, in order, to what is already there |
| BookProcessor.ParagraphDocsSnoc | chatbot/book_processor.py:104-109 | one more paragraph adds its stripped form at the end exactly when it is kept |

## Left out

- Vector store, embeddings and `similarity_search`: Chroma and HuggingFace are third-party nearest-neighbour services. Their answer for a query is the input `Retrieval`, and `similarity_search(k)` is the first `k` documents of the ranking. `Document` objects are their `page_content` strings.
- The hosted model: building `ChatGroq` and `invoke` are remote calls. Their outcome is a function from prompt to reply or failure. The probe at start-up is a function from model name to outcome. Whether `chain.py` enabled the hosted model at start-up is an input flag.
- `initialize_components` and `_load_basic_knowledge`/`_load_medical_book` in every variant: they build the store (I/O and third-party calls). The store's answer is the input.
- The import-fallback stub classes of `chatbot/working_chain.py`, `print` logging, `app.py`, `setup_medical_book.py`, `reprocess_book.py`, `check_medical_db.py`, `chroma_setup.py` and `test_groq.py`. None of them is part of this model.
- PDF extraction and the file checks of `book_processor.py`: file I/O.
- The two regular expressions of `book_processor.py` (the disease-name pattern and the section-header split). Their outputs are inputs: `sections` (text and headings alternating), `headerSplit` (one entry's text split at its headers) and `paragraphs` (the text split at blank lines). Their matching is not modelled.
- `lower()` on non-ASCII text: only ASCII letters are lower-cased. Whitespace for `strip()` and `split()` is Python's full `str.isspace` set.
- The outer `except Exception` replies of `get_response`: they are not modelled. The only failure modelled is a raising search, or a missing store in `updated_chain.py`. Such a failure gives the generic reply in `working_chain.py` and `updated_chain.py`, and no reference text in `groq_chain.py` and `chain.py`, where `_get_medical_context` catches it itself.
- UpdatedChain.GetResponse: as written, `updated_chain.py` cannot build its store. Line 1 imports `HuggingFaceEmbedding`, line 36 calls the never-imported `HuggingFaceEmbeddings`, and `initialize_components` (lines 10-47) has no `try`, so the constructor raises. The model assumes a store that was built. A missing store is treated like a search that raises (an attribute error caught by the same handler).
- GroqChain.GroqEnhancedResponse: `_get_medical_context` runs once in the enhanced path and again in the basic fallback. The model assumes both searches give the same answer.
- GroqChain.GroqMedicalChatbot.InitializeGroq: a model whose client cannot be built counts as failing the probe, and `llm` is still set to it. In the source, `llm` is not assigned when building the client raises. It is assigned when only the test call raises.
- `_initialize_groq`'s outer `except` (a failed import of the client library) is not modelled.
- WorkingChain.GetResponse: its contract names the emergency, error and disclaimer cases. Which answer precedes the disclaimer is stated in `WorkingChain.AnswerSource`.
- BookProcessor.BetterMedicalSplit: the two loops are methods of their own (`SplitDiseases`, `AppendParagraphs`).
