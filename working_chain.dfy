/**
 * `MedicalChatbot` of chatbot/working_chain.py: an emergency check, then a
 * concise answer cut from the best retrieved passage, or a canned answer
 * chosen by keyword, always followed by a short disclaimer.
 */
module WorkingChain {

  import opened Wrappers
  import opened Text
  import opened Rules
  import opened Inputs

  const Disclaimer: string := "\n\n⚠️ Consult healthcare professionals for medical advice."
  const ErrorReply: string := "I can provide general health information. Please consult a doctor for medical advice."
  const EmergencySuffix: string := "\n\n📞 Call emergency services!"

  const ChestPainAlert: string := "🚨 CHEST PAIN could indicate a heart attack. Call emergency services immediately!"

  /** The emergency triggers, in the dict's insertion order, and their alerts. */
  const EmergencyKeys: seq<string> := [
    "chest pain", "heart attack", "stroke", "difficulty breathing", "severe bleeding",
    "unconscious", "suicide", "kill myself", "choking", "severe allergic reaction"
  ]
  const EmergencyAlerts: seq<string> := [
    ChestPainAlert,
    "🚨 HEART ATTACK: Call emergency services now! Symptoms: chest pain, shortness of breath.",
    "🚨 STROKE: Remember FAST - Face drooping, Arm weakness, Speech difficulty. Call emergency services!",
    "🚨 BREATHING DIFFICULTY: This is a medical emergency! Call for help immediately!",
    "🚨 SEVERE BLEEDING: Apply pressure and call emergency services!",
    "🚨 UNCONSCIOUS: Check breathing, call emergency services!",
    "🚨 Call emergency services or a crisis helpline immediately! Your life matters!",
    "🚨 Call for help now! Emergency services are available 24/7!",
    "🚨 CHOKING: If can't breathe, call emergency services!",
    "🚨 SEVERE ALLERGIC REACTION: This can be life-threatening! Call emergency services!"
  ]
  const Emergencies: seq<Rule<string>> := Triggers(EmergencyKeys, EmergencyAlerts)

  /** `_check_medical_emergency`: lower-cases the query, then the first trigger found wins. */
  function CheckEmergency(query: string): (r: Option<string>)
    ensures r.Some? ==> EndsWith(r.value, EmergencySuffix)
  {
    match Scan(Emergencies, Lower(query))
    case Some(alert) =>
      EndsWithConcat(alert, EmergencySuffix);
      Some(alert + EmergencySuffix)
    case None => None
  }

  /**
   * An alert is raised iff some trigger occurs in the lower-cased query, and
   * it is the alert of the first such trigger in table order, with the
   * call-to-action suffix.
   */
  lemma EmergencyIsFirstTrigger(query: string)
    ensures CheckEmergency(query).Some? <==> exists i | 0 <= i < |EmergencyKeys| :: Contains(Lower(query), EmergencyKeys[i])
    ensures forall i | 0 <= i < |EmergencyKeys| && Contains(Lower(query), EmergencyKeys[i])
                       && (forall j | 0 <= j < i :: !Contains(Lower(query), EmergencyKeys[j])) ::
              CheckEmergency(query) == Some(EmergencyAlerts[i] + EmergencySuffix)
  {
    TriggerScan(Emergencies, Lower(query));
  }

  /** "heart attack and chest pain" mentions two triggers; "chest pain" comes first in the table and wins. */
  lemma FirstTriggerWins()
    ensures CheckEmergency("heart attack and chest pain") == Some(ChestPainAlert + EmergencySuffix)
  {
    var q := "heart attack and chest pain";
    LowerOfLower(q);
    assert OccursAt(q, EmergencyKeys[0], 17);
    EmergencyIsFirstTrigger(q);
  }

  /** Question types, tried in this order, and the words a relevant sentence must then contain. */
  const QuestionWords: seq<seq<string>> := [["what is"], ["symptoms"], ["treatment", "treat"], ["cause"], ["diagnos"]]
  const SentenceCues: seq<seq<string>> := [
    ["is", "defined as", "means", "refers to"],
    ["symptom", "sign", "experience", "feel"],
    ["treat", "therapy", "medication", "drug", "cure"],
    ["cause", "due to", "because", "result from"],
    ["diagnos", "test", "detect", "identify"]
  ]
  const QuestionKinds: seq<Rule<seq<string>>> := Table(QuestionWords, SentenceCues)

  /** `any(word in text for word in cues)`. */
  predicate Mentions(text: string, cues: seq<string>) {
    exists c | c in cues :: Contains(text, c)
  }

  /**
   * `_is_relevant(sentence, question)`, `question` already lower-cased: the
   * first question type found decides; with none, the sentence must share
   * at least two words with the question.
   */
  predicate IsRelevant(sentence: string, question: string) {
    var sentenceLower := Lower(sentence);
    match Scan(QuestionKinds, question)
    case Some(cues) => Mentions(sentenceLower, cues)
    case None => |SharedWords(question, sentenceLower)| >= 2
  }

  /**
   * The question-type dispatch in priority order 'what is' > 'symptoms' >
   * 'treatment'/'treat' > 'cause' > 'diagnos'; the shared-word test applies
   * only when none of them occurs in the question.
   */
  lemma RelevanceDispatch(sentence: string, question: string)
    ensures Contains(question, "what is") ==>
              (IsRelevant(sentence, question) <==> Mentions(Lower(sentence), ["is", "defined as", "means", "refers to"]))
    ensures !Contains(question, "what is") && Contains(question, "symptoms") ==>
              (IsRelevant(sentence, question) <==> Mentions(Lower(sentence), ["symptom", "sign", "experience", "feel"]))
    ensures !Contains(question, "what is") && !Contains(question, "symptoms")
            && (Contains(question, "treatment") || Contains(question, "treat")) ==>
              (IsRelevant(sentence, question) <==> Mentions(Lower(sentence), ["treat", "therapy", "medication", "drug", "cure"]))
    ensures !Contains(question, "what is") && !Contains(question, "symptoms")
            && !Contains(question, "treatment") && !Contains(question, "treat") && Contains(question, "cause") ==>
              (IsRelevant(sentence, question) <==> Mentions(Lower(sentence), ["cause", "due to", "because", "result from"]))
    ensures !Contains(question, "what is") && !Contains(question, "symptoms") && !Contains(question, "treatment")
            && !Contains(question, "treat") && !Contains(question, "cause") && Contains(question, "diagnos") ==>
              (IsRelevant(sentence, question) <==> Mentions(Lower(sentence), ["diagnos", "test", "detect", "identify"]))
    ensures !Contains(question, "what is") && !Contains(question, "symptoms") && !Contains(question, "treatment")
            && !Contains(question, "treat") && !Contains(question, "cause") && !Contains(question, "diagnos") ==>
              (IsRelevant(sentence, question) <==> |SharedWords(question, Lower(sentence))| >= 2)
  {
    QuestionKind(question);
  }

  /** Which row of the question-type table answers `question`. */
  lemma QuestionKind(question: string)
    ensures Contains(question, "what is") ==> Scan(QuestionKinds, question) == Some(SentenceCues[0])
    ensures !Contains(question, "what is") && Contains(question, "symptoms") ==> Scan(QuestionKinds, question) == Some(SentenceCues[1])
    ensures (!Contains(question, "what is") && !Contains(question, "symptoms")
             && (Contains(question, "treatment") || Contains(question, "treat"))) ==> Scan(QuestionKinds, question) == Some(SentenceCues[2])
    ensures (!Contains(question, "what is") && !Contains(question, "symptoms") && !Contains(question, "treatment")
             && !Contains(question, "treat") && Contains(question, "cause")) ==> Scan(QuestionKinds, question) == Some(SentenceCues[3])
    ensures !Contains(question, "what is") && !Contains(question, "symptoms") && !Contains(question, "treatment")
            && !Contains(question, "treat") && !Contains(question, "cause") && Contains(question, "diagnos") ==>
              Scan(QuestionKinds, question) == Some(SentenceCues[4])
    ensures !Contains(question, "what is") && !Contains(question, "symptoms") && !Contains(question, "treatment")
            && !Contains(question, "treat") && !Contains(question, "cause") && !Contains(question, "diagnos") ==>
              Scan(QuestionKinds, question) == None
  {
    assert Fires(QuestionKinds[0], question) <==> Contains(question, "what is");
    assert Fires(QuestionKinds[1], question) <==> Contains(question, "symptoms");
    assert Fires(QuestionKinds[2], question) <==> Contains(question, "treatment") || Contains(question, "treat");
    assert Fires(QuestionKinds[3], question) <==> Contains(question, "cause");
    assert Fires(QuestionKinds[4], question) <==> Contains(question, "diagnos");
    if Contains(question, "what is") {
      ScanAt(QuestionKinds, question, 0);
    } else if Contains(question, "symptoms") {
      ScanAt(QuestionKinds, question, 1);
    } else if Contains(question, "treatment") || Contains(question, "treat") {
      ScanAt(QuestionKinds, question, 2);
    } else if Contains(question, "cause") {
      ScanAt(QuestionKinds, question, 3);
    } else if Contains(question, "diagnos") {
      ScanAt(QuestionKinds, question, 4);
    }
  }

  /** The test the collection loop applies to a stripped sentence: at least 20 characters and `_is_relevant`. */
  function Qualifies(questionLower: string): string -> bool {
    sentence => |sentence| >= 20 && IsRelevant(sentence, questionLower)
  }

  /** Every sentence the loop may take is stripped, at least 20 characters long and relevant. */
  lemma QualifyingSentences(sentences: seq<string>, questionLower: string)
    ensures forall s | s in Qualifying(StripEach(sentences), Qualifies(questionLower)) ::
              Trimmed(s) && |s| >= 20 && IsRelevant(s, questionLower)
  {
    var stripped := StripEach(sentences);
    forall s | s in Qualifying(stripped, Qualifies(questionLower))
      ensures Trimmed(s) && |s| >= 20 && IsRelevant(s, questionLower)
    {
      assert s in stripped && Qualifies(questionLower)(s);
      var i :| 0 <= i < |stripped| && stripped[i] == s;
    }
  }

  /**
   * What the collection loop of `_extract_most_relevant_part` gathers from
   * the stripped `candidates` when it has gathered `acc` so far: each one
   * that qualifies is appended, and the loop stops as soon as the
   * space-joined gathering exceeds 200 characters.
   */
  function Collected(candidates: seq<string>, qualifies: string -> bool, acc: seq<string>): seq<string>
    decreases |candidates|
  {
    if candidates == [] then acc
    else if !qualifies(candidates[0]) then Collected(candidates[1..], qualifies, acc)
    else if JoinedLength(" ", acc + [candidates[0]]) > 200 then acc + [candidates[0]]
    else Collected(candidates[1..], qualifies, acc + [candidates[0]])
  }

  /** The loop only appends: what it had gathered stays, followed by qualifying candidates in order. */
  lemma {:induction false} CollectedExtends(candidates: seq<string>, qualifies: string -> bool, acc: seq<string>)
    ensures var r := Collected(candidates, qualifies, acc);
      |acc| <= |r| && r[..|acc|] == acc && r[|acc|..] <= Qualifying(candidates, qualifies)
    decreases |candidates|
  {
    if candidates != [] {
      var s := candidates[0];
      var rest := candidates[1..];
      if !qualifies(s) {
        assert Collected(candidates, qualifies, acc) == Collected(rest, qualifies, acc);
        assert Qualifying(candidates, qualifies) == Qualifying(rest, qualifies);
        CollectedExtends(rest, qualifies, acc);
      } else {
        var acc' := acc + [s];
        assert Qualifying(candidates, qualifies) == [s] + Qualifying(rest, qualifies);
        if JoinedLength(" ", acc') <= 200 {
          assert Collected(candidates, qualifies, acc) == Collected(rest, qualifies, acc');
          CollectedExtends(rest, qualifies, acc');
          var r := Collected(rest, qualifies, acc');
          assert r[..|acc'|][..|acc|] == r[..|acc|];
          assert r[|acc|..] == [s] + r[|acc'|..];
        } else {
          assert Collected(candidates, qualifies, acc) == acc';
          assert acc'[|acc|..] == [s];
        }
      }
    }
  }

  /** The loop ends by passing 200 joined characters or by running out of qualifying candidates. */
  lemma {:induction false} CollectedEnds(candidates: seq<string>, qualifies: string -> bool, acc: seq<string>)
    ensures var r := Collected(candidates, qualifies, acc);
      r == acc + Qualifying(candidates, qualifies) || JoinedLength(" ", r) > 200
    decreases |candidates|
  {
    if candidates != [] {
      var s := candidates[0];
      var rest := candidates[1..];
      if !qualifies(s) {
        assert Qualifying(candidates, qualifies) == Qualifying(rest, qualifies);
        assert Collected(candidates, qualifies, acc) == Collected(rest, qualifies, acc);
        CollectedEnds(rest, qualifies, acc);
      } else if JoinedLength(" ", acc + [s]) <= 200 {
        assert Qualifying(candidates, qualifies) == [s] + Qualifying(rest, qualifies);
        assert Collected(candidates, qualifies, acc) == Collected(rest, qualifies, acc + [s]);
        CollectedEnds(rest, qualifies, acc + [s]);
        AppendAssoc(acc, [s], Qualifying(rest, qualifies));
      }
    }
  }

  /** Before its last addition the gathering was still within 200 joined characters. */
  lemma {:induction false} CollectedWithin(candidates: seq<string>, qualifies: string -> bool, acc: seq<string>)
    requires JoinedLength(" ", acc) <= 200
    ensures var r := Collected(candidates, qualifies, acc);
      |r| > |acc| ==> JoinedLength(" ", r[..|r| - 1]) <= 200
    decreases |candidates|
  {
    if candidates != [] {
      var s := candidates[0];
      var rest := candidates[1..];
      var acc' := acc + [s];
      if !qualifies(s) {
        assert Collected(candidates, qualifies, acc) == Collected(rest, qualifies, acc);
        CollectedWithin(rest, qualifies, acc);
      } else if JoinedLength(" ", acc') <= 200 {
        assert Collected(candidates, qualifies, acc) == Collected(rest, qualifies, acc');
        CollectedWithin(rest, qualifies, acc');
        CollectedExtends(rest, qualifies, acc');
        var r := Collected(rest, qualifies, acc');
        if |r| == |acc'| {
          assert r[..|r| - 1] == acc;
        }
      } else {
        assert acc'[..|acc'| - 1] == acc;
      }
    }
  }

  /**
   * The relevant-sentence case of `_extract_most_relevant_part`: the
   * gathering is a prefix of the qualifying candidates in source order; it
   * was still within 200 characters before its last sentence was added; and
   * it stops either because the joined length passed 200 or because no
   * qualifying candidate is left. It is empty exactly when none qualifies.
   */
  lemma RelevantSentences(candidates: seq<string>, qualifies: string -> bool)
    ensures var r := Collected(candidates, qualifies, []);
      && r <= Qualifying(candidates, qualifies)
      && (r != [] ==> |Join(" ", r[..|r| - 1])| <= 200)
      && (r == Qualifying(candidates, qualifies) || |Join(" ", r)| > 200)
      && (r == [] <==> Qualifying(candidates, qualifies) == [])
  {
    CollectedExtends(candidates, qualifies, []);
    CollectedEnds(candidates, qualifies, []);
    CollectedWithin(candidates, qualifies, []);
    var r := Collected(candidates, qualifies, []);
    assert r[0..] == r;
    JoinLength(" ", r);
    if r != [] {
      JoinLength(" ", r[..|r| - 1]);
    }
  }

  /**
   * The fallback of `_extract_most_relevant_part` when nothing relevant was
   * found: the first unstripped sentence of more than 50 characters cut to
   * 400 (with "..." iff it was longer), else the content cut the same way;
   * never more than 403 characters.
   */
  function FallbackPart(sentences: seq<string>, content: string): (r: string)
    ensures |r| <= 403
    ensures forall i | 0 <= i < |sentences| && |sentences[i]| > 50 && (forall j | 0 <= j < i :: |sentences[j]| <= 50) ::
              r == Clip(sentences[i], 400)
    ensures (forall i | 0 <= i < |sentences| :: |sentences[i]| <= 50) ==> r == Clip(content, 400)
  {
    match FirstLongerThan(sentences, 50)
    case Some(sentence) => Clip(sentence, 400)
    case None => Clip(content, 400)
  }

  /** `_extract_most_relevant_part(content, question)`, as a value. */
  function MostRelevantPart(content: string, question: string): string {
    var sentences := SplitSentences(content);
    var relevant := Collected(StripEach(sentences), Qualifies(Lower(question)), []);
    if relevant != [] then Join(" ", relevant) else FallbackPart(sentences, content)
  }

  /** Without a qualifying sentence the answer is the fallback. */
  lemma NoRelevantSentence(content: string, question: string)
    requires Qualifying(StripEach(SplitSentences(content)), Qualifies(Lower(question))) == []
    ensures MostRelevantPart(content, question) == FallbackPart(SplitSentences(content), content)
  {
    RelevantSentences(StripEach(SplitSentences(content)), Qualifies(Lower(question)));
  }

  /** One turn of the collection loop, on the candidates from index `i` on. */
  lemma CollectedStep(candidates: seq<string>, qualifies: string -> bool, i: nat, acc: seq<string>)
    requires i < |candidates|
    ensures var c := candidates[i];
      Collected(candidates[i..], qualifies, acc) ==
        if !qualifies(c) then Collected(candidates[i + 1..], qualifies, acc)
        else if JoinedLength(" ", acc + [c]) > 200 then acc + [c]
        else Collected(candidates[i + 1..], qualifies, acc + [c])
  {
    assert candidates[i..][0] == candidates[i];
    assert candidates[i..][1..] == candidates[i + 1..];
  }

  /** `_extract_most_relevant_part`, with the collection loop and its early `break`. */
  method ExtractMostRelevantPart(content: string, question: string) returns (part: string)
    ensures part == MostRelevantPart(content, question)
  {
    var questionLower := Lower(question);
    var sentences := SplitSentences(content);
    ghost var candidates := StripEach(sentences);
    ghost var qualifies := Qualifies(questionLower);
    ghost var gathered := Collected(candidates, qualifies, []);
    var relevant: seq<string> := [];
    var i := 0;
    while i < |sentences|
      invariant 0 <= i <= |sentences|
      invariant gathered == Collected(candidates[i..], qualifies, relevant)
    {
      CollectedStep(candidates, qualifies, i, relevant);
      var sentence := Strip(sentences[i]);
      var keep := |sentence| >= 20 && IsRelevant(sentence, questionLower);
      assert keep == qualifies(candidates[i]);
      if keep {
        relevant := relevant + [sentence];
        JoinLength(" ", relevant);
        if |Join(" ", relevant)| > 200 {
          assert gathered == relevant;
          break;
        }
      }
      i := i + 1;
    }
    assert gathered == relevant;
    if relevant != [] {
      part := Join(" ", relevant);
    } else {
      part := FallbackPart(sentences, content);
    }
  }

  /**
   * `_format_concise_response`: the most relevant part of the first document,
   * clipped to 497 characters plus "..." when longer than 500; never longer
   * than 500.
   */
  function FormatConciseResponse(docs: seq<string>, question: string): (r: string)
    requires |docs| > 0
    ensures |r| <= 500
    ensures var part := MostRelevantPart(docs[0], question);
      (|part| <= 500 ==> r == part) && (|part| > 500 ==> r == part[..497] + "...")
  {
    ConciseClip(MostRelevantPart(docs[0], question))
  }

  /** The 500-character cut of `_format_concise_response`. */
  function ConciseClip(part: string): (r: string)
    ensures |r| <= 500
    ensures |part| <= 500 ==> r == part
    ensures |part| > 500 ==> r == part[..497] + "..."
  {
    if |part| > 500 then part[..497] + "..." else part
  }

  const DiabetesConcise: string := "Diabetes is a condition where the body can't properly regulate blood sugar. There are two main types: Type 1 (insulin-dependent) and Type 2 (often lifestyle-related)."
  const DefaultConcise: string := "I can provide concise medical information. Please ask about specific conditions or symptoms."

  /** The keyword groups of `_get_concise_fallback`, in priority order, and their answers. */
  const ConciseKeywords: seq<seq<string>> := [
    ["diabetes"], ["heart", "cardiac"], ["cancer"], ["asthma"], ["headache"],
    ["fever"], ["cold", "flu"], ["blood pressure"], ["allerg", "sneez"]
  ]
  const ConciseReplies: seq<string> := [
    DiabetesConcise,
    "Heart disease refers to conditions affecting the heart and blood vessels. Includes coronary artery disease, heart failure, and arrhythmias.",
    "Cancer is abnormal cell growth that can spread. Treatments include surgery, chemotherapy, radiation, and immunotherapy.",
    "Asthma is a chronic lung condition causing breathing difficulties. Managed with inhalers and avoiding triggers.",
    "Headaches can be tension, migraine, or cluster types. Often treated with rest, hydration, and pain relievers.",
    "Fever is elevated body temperature, usually from infection. Rest and fluids help. See doctor if high or prolonged.",
    "Colds and flu are respiratory infections. Symptoms include cough, fever, and fatigue. Rest and fluids are important.",
    "High blood pressure often has no symptoms. Managed with diet, exercise, and medication. Regular monitoring is important.",
    "Allergies are immune responses to substances. Symptoms include sneezing, itching, and rashes. Antihistamines can help."
  ]
  const ConciseAnswers: seq<Rule<string>> := Table(ConciseKeywords, ConciseReplies)

  /**
   * `_get_concise_fallback`: the answer of the first keyword group found in
   * the lower-cased query, 'diabetes' first; the default invitation when no
   * keyword occurs.
   */
  function ConciseFallback(query: string): (r: string)
    ensures Contains(Lower(query), "diabetes") ==> r == DiabetesConcise
    ensures forall i | 0 <= i < |ConciseAnswers| && Fires(ConciseAnswers[i], Lower(query))
                       && (forall j | 0 <= j < i :: !Fires(ConciseAnswers[j], Lower(query))) ::
              r == ConciseAnswers[i].payload
    ensures (forall i | 0 <= i < |ConciseAnswers| :: !Fires(ConciseAnswers[i], Lower(query))) ==> r == DefaultConcise
  {
    assert Contains(Lower(query), "diabetes") ==> Fires(ConciseAnswers[0], Lower(query));
    ScanOr(ConciseAnswers, Lower(query), DefaultConcise)
  }

  /**
   * `get_response(user_message)` with the vector store's answer as an input:
   * an emergency alert is returned as it is; a failing search gives the
   * generic reply; every other answer ends with the disclaimer.
   */
  function GetResponse(message: string, retrieval: Retrieval): (r: string)
    ensures CheckEmergency(Lower(message)).Some? ==> r == CheckEmergency(Lower(message)).value
    ensures CheckEmergency(Lower(message)).None? && retrieval.SearchError? ==> r == ErrorReply
    ensures CheckEmergency(Lower(message)).None? && !retrieval.SearchError? ==> EndsWith(r, Disclaimer)
  {
    var userLower := Lower(message);
    match CheckEmergency(userLower)
    case Some(alert) => alert
    case None =>
      match retrieval
      case SearchError => ErrorReply
      case NoStore =>
        EndsWithConcat(ConciseFallback(userLower), Disclaimer);
        ConciseFallback(userLower) + Disclaimer
      case Ranked(ranking) =>
        var docs := TopK(ranking, 2);
        var answer := if docs != [] then FormatConciseResponse(docs, message) else ConciseFallback(userLower);
        EndsWithConcat(answer, Disclaimer);
        answer + Disclaimer
  }

  /**
   * Where a non-emergency answer comes from: the concise part of the best
   * document when the search finds any, the keyword answer when there is no
   * store or the search finds nothing.
   */
  lemma AnswerSource(message: string, retrieval: Retrieval)
    requires CheckEmergency(Lower(message)).None?
    ensures retrieval.Ranked? && retrieval.docs != [] ==>
              GetResponse(message, retrieval) == FormatConciseResponse(TopK(retrieval.docs, 2), message) + Disclaimer
    ensures retrieval.NoStore? || (retrieval.Ranked? && retrieval.docs == []) ==>
              GetResponse(message, retrieval) == ConciseFallback(Lower(message)) + Disclaimer
  {
  }

  /** An emergency short-circuits everything: the vector store is never consulted. */
  lemma EmergencyIgnoresStore(message: string, retrieval: Retrieval, other: Retrieval)
    requires CheckEmergency(Lower(message)).Some?
    ensures GetResponse(message, retrieval) == GetResponse(message, other)
    ensures !EndsWith(GetResponse(message, retrieval), Disclaimer)
  {
    var r := GetResponse(message, retrieval);
    assert EndsWith(r, EmergencySuffix);
    assert r[|r| - 1] == '!';
    assert Disclaimer[|Disclaimer| - 1] == '.';
  }
}
