/**
 * The ingestion chunker of chatbot/book_processor.py. The text of the
 * medical encyclopedia arrives already split by the two regular
 * expressions (not modelled): `sections` alternates text between disease
 * headings and the headings themselves, and `headerSplit(content)`
 * alternates the text of one entry with the headers "Symptoms", "Causes",
 * "Treatment", "Diagnosis", "Prevention" and "Prognosis" found in it.
 * `paragraphs` is the text split at blank lines.
 */
module BookProcessor {

  import opened Text

  const SectionBreak: string := "\n\n"

  // ---------------------------------------------------------------------------
  // `_split_disease_content`
  // ---------------------------------------------------------------------------

  /**
   * The chunker's state: the texts of the chunks emitted so far, before
   * they are stripped, and the chunk being accumulated.
   */
  datatype Walk = Walk(raws: seq<string>, current: string)

  /**
   * One turn of the loop of `_split_disease_content` at index `i`: a
   * content segment that is not blank is appended; at a header the
   * accumulated chunk is emitted when it is longer than 300 characters and
   * a new one opens with "name - Header", otherwise the header joins the
   * current chunk.
   */
  function Step(w: Walk, name: string, i: nat, section: string): Walk {
    if i % 2 == 0 then
      if !Blank(section) then Walk(w.raws, w.current + section) else w
    else if |w.current| > 300 then Walk(w.raws + [w.current], name + " - " + section + SectionBreak)
    else Walk(w.raws, w.current + section + SectionBreak)
  }

  /** The state after the first `n` sections, starting from a chunk that holds only the name. */
  function WalkTo(sections: seq<string>, name: string, n: nat): Walk
    requires n <= |sections|
  {
    if n == 0 then Walk([], name + SectionBreak)
    else Step(WalkTo(sections, name, n - 1), name, n - 1, sections[n - 1])
  }

  /** The texts of all chunks of an entry: those emitted on the way, then the last one if longer than 100 characters. */
  function EntryRaws(sections: seq<string>, name: string): seq<string> {
    var w := WalkTo(sections, name, |sections|);
    if |w.current| > 100 then w.raws + [w.current] else w.raws
  }

  /** The chunks of one disease entry: the texts of `EntryRaws`, stripped. */
  function DiseaseChunks(sections: seq<string>, name: string): seq<string> {
    StripEach(EntryRaws(sections, name))
  }

  /** The accumulated text the chunker drops at the end: the last chunk when it is 100 characters or fewer. */
  function Dropped(sections: seq<string>, name: string): (r: string)
    ensures |r| <= 100
  {
    var w := WalkTo(sections, name, |sections|);
    if |w.current| > 100 then "" else w.current
  }

  /** `_split_disease_content(content, disease_name)`, with the header split of `content` as `sections`. */
  method SplitDiseaseContent(sections: seq<string>, name: string) returns (chunks: seq<string>)
    ensures chunks == DiseaseChunks(sections, name)
  {
    chunks := [];
    var current := name + SectionBreak;
    var i := 0;
    while i < |sections|
      invariant 0 <= i <= |sections|
      invariant chunks == StripEach(WalkTo(sections, name, i).raws)
      invariant current == WalkTo(sections, name, i).current
    {
      var section := sections[i];
      ghost var w := WalkTo(sections, name, i);
      WalkStep(sections, name, i + 1);
      if i % 2 == 0 {
        StripEmptyIffBlank(section);
        if Strip(section) != "" {
          current := current + section;
        }
      } else if |current| > 300 {
        StripEachSnoc(w.raws, current);
        chunks := chunks + [Strip(current)];
        current := name + " - " + section + SectionBreak;
      } else {
        current := current + section + SectionBreak;
      }
      i := i + 1;
    }
    ghost var w := WalkTo(sections, name, |sections|);
    if |current| > 100 {
      StripEachSnoc(w.raws, current);
      chunks := chunks + [Strip(current)];
    }
  }

  /** The header at index `i` closes the accumulated chunk and opens a new one. */
  predicate Emits(sections: seq<string>, name: string, i: nat)
    requires i < |sections|
  {
    i % 2 == 1 && |WalkTo(sections, name, i).current| > 300
  }

  /**
   * What section `i` contributes to the laid-out text: a content segment
   * itself unless it is blank; a header with a blank line after it, and
   * with the name in front when it opens a new chunk.
   */
  function Piece(sections: seq<string>, name: string, i: nat): string
    requires i < |sections|
  {
    if i % 2 == 0 then (if !Blank(sections[i]) then sections[i] else "")
    else if Emits(sections, name, i) then name + " - " + sections[i] + SectionBreak
    else sections[i] + SectionBreak
  }

  /** The text laid out by the first `n` sections: the name, then every section's piece in order. */
  function Layout(sections: seq<string>, name: string, n: nat): string
    requires n <= |sections|
  {
    if n == 0 then name + SectionBreak else Layout(sections, name, n - 1) + Piece(sections, name, n - 1)
  }

  /** The way every chunk begins: "name\n\n" or "name - Header\n\n" for one of the headers. */
  predicate OpensChunk(s: string, sections: seq<string>, name: string) {
    || StartsWith(s, name + SectionBreak)
    || exists i | 0 <= i < |sections| && i % 2 == 1 :: StartsWith(s, name + " - " + sections[i] + SectionBreak)
  }

  lemma OpensChunkExtend(s: string, t: string, sections: seq<string>, name: string)
    requires OpensChunk(s, sections, name)
    ensures OpensChunk(s + t, sections, name)
  {
    if StartsWith(s, name + SectionBreak) {
      assert (s + t)[..|name + SectionBreak|] == s[..|name + SectionBreak|];
    } else {
      var i :| 0 <= i < |sections| && i % 2 == 1 && StartsWith(s, name + " - " + sections[i] + SectionBreak);
      var p := name + " - " + sections[i] + SectionBreak;
      assert (s + t)[..|p|] == s[..|p|];
    }
  }

  lemma WalkStep(sections: seq<string>, name: string, n: nat)
    requires 0 < n <= |sections|
    ensures WalkTo(sections, name, n) == Step(WalkTo(sections, name, n - 1), name, n - 1, sections[n - 1])
  {
  }

  lemma LayoutStep(sections: seq<string>, name: string, n: nat)
    requires 0 < n <= |sections|
    ensures Layout(sections, name, n) == Layout(sections, name, n - 1) + Piece(sections, name, n - 1)
  {
  }

  /** The chunk being accumulated always begins with the name, or with "name - Header". */
  lemma {:induction false} CurrentOpensChunk(sections: seq<string>, name: string, n: nat)
    requires n <= |sections|
    ensures OpensChunk(WalkTo(sections, name, n).current, sections, name)
  {
    if n == 0 {
      assert StartsWith(name + SectionBreak, name + SectionBreak);
    } else {
      var i := n - 1;
      CurrentOpensChunk(sections, name, i);
      var w := WalkTo(sections, name, i);
      WalkStep(sections, name, n);
      if i % 2 == 0 {
        if !Blank(sections[i]) {
          OpensChunkExtend(w.current, sections[i], sections, name);
        }
      } else if |w.current| > 300 {
        var opening := name + " - " + sections[i] + SectionBreak;
        assert StartsWith(opening, opening);
      } else {
        OpensChunkExtend(w.current, sections[i] + SectionBreak, sections, name);
      }
    }
  }

  /** Every emitted chunk began with the name and was longer than 300 characters before stripping. */
  lemma {:induction false} RawsOpen(sections: seq<string>, name: string, n: nat)
    requires n <= |sections|
    ensures forall raw | raw in WalkTo(sections, name, n).raws :: OpensChunk(raw, sections, name) && |raw| > 300
  {
    if n > 0 {
      RawsOpen(sections, name, n - 1);
      CurrentOpensChunk(sections, name, n - 1);
      StepEmits(WalkTo(sections, name, n - 1), sections, name, n - 1);
    }
  }

  /**
   * A turn either emits nothing or emits the chunk it held, and then only
   * one longer than 300 characters: emitted chunks stay opened by the name.
   */
  lemma StepEmits(w: Walk, sections: seq<string>, name: string, i: nat)
    requires i < |sections|
    requires forall raw | raw in w.raws :: OpensChunk(raw, sections, name) && |raw| > 300
    requires OpensChunk(w.current, sections, name)
    ensures var raws := Step(w, name, i, sections[i]).raws;
      raws == w.raws || (raws == w.raws + [w.current] && |w.current| > 300)
    ensures forall raw | raw in Step(w, name, i, sections[i]).raws :: OpensChunk(raw, sections, name) && |raw| > 300
  {
  }

  /**
   * The walk loses nothing and repeats nothing: the texts of the emitted
   * chunks, followed by the chunk being accumulated, are exactly the
   * laid-out text.
   */
  lemma {:induction false} WalkLayout(sections: seq<string>, name: string, n: nat)
    requires n <= |sections|
    ensures Concat(WalkTo(sections, name, n).raws) + WalkTo(sections, name, n).current == Layout(sections, name, n)
  {
    if n == 0 {
      assert Concat([]) + (name + SectionBreak) == name + SectionBreak;
    } else {
      WalkLayout(sections, name, n - 1);
      StepLayout(sections, name, n);
    }
  }

  /** One turn of the walk adds its section's piece to the laid-out text and nothing else. */
  lemma StepLayout(sections: seq<string>, name: string, n: nat)
    requires 0 < n <= |sections|
    requires Concat(WalkTo(sections, name, n - 1).raws) + WalkTo(sections, name, n - 1).current == Layout(sections, name, n - 1)
    ensures Concat(WalkTo(sections, name, n).raws) + WalkTo(sections, name, n).current == Layout(sections, name, n)
  {
    var i := n - 1;
    var w := WalkTo(sections, name, i);
    var piece := Piece(sections, name, i);
    WalkStep(sections, name, n);
    LayoutStep(sections, name, n);
    if Emits(sections, name, i) {
      assert WalkTo(sections, name, n) == Walk(w.raws + [w.current], piece);
      ConcatSnoc(w.raws, w.current);
    } else {
      if i % 2 == 0 && Blank(sections[i]) {
        assert piece == [];
        assert w.current + piece == w.current;
      } else if i % 2 == 1 {
        AppendAssoc(w.current, sections[i], SectionBreak);
      }
      assert WalkTo(sections, name, n) == Walk(w.raws, w.current + piece);
      AppendAssoc(Concat(w.raws), w.current, piece);
    }
  }

  /**
   * The chunks of one entry are the strip of texts that each begin with the
   * name (alone or with a header) and are longer than 100 characters;
   * together, in order, those texts are the laid-out text of the whole
   * entry except a dropped tail of at most 100 characters.
   */
  lemma DiseaseChunksLayout(sections: seq<string>, name: string)
    ensures forall raw | raw in EntryRaws(sections, name) :: OpensChunk(raw, sections, name) && |raw| > 100
    ensures Concat(EntryRaws(sections, name)) + Dropped(sections, name) == Layout(sections, name, |sections|)
  {
    EntryRawsOpen(sections, name);
    EntryRawsLayout(sections, name);
  }

  lemma EntryRawsOpen(sections: seq<string>, name: string)
    ensures forall raw | raw in EntryRaws(sections, name) :: OpensChunk(raw, sections, name) && |raw| > 100
  {
    var w := WalkTo(sections, name, |sections|);
    CurrentOpensChunk(sections, name, |sections|);
    RawsOpen(sections, name, |sections|);
    forall raw | raw in EntryRaws(sections, name) ensures OpensChunk(raw, sections, name) && |raw| > 100 {
      if raw !in w.raws {
        assert |w.current| > 100 && raw == w.current;
      }
    }
  }

  lemma EntryRawsLayout(sections: seq<string>, name: string)
    ensures Concat(EntryRaws(sections, name)) + Dropped(sections, name) == Layout(sections, name, |sections|)
  {
    var w := WalkTo(sections, name, |sections|);
    WalkLayout(sections, name, |sections|);
    if |w.current| > 100 {
      assert EntryRaws(sections, name) == w.raws + [w.current];
      assert Dropped(sections, name) == [];
      ConcatSnoc(w.raws, w.current);
      assert Concat(w.raws + [w.current]) + [] == Concat(w.raws + [w.current]);
    } else {
      assert EntryRaws(sections, name) == w.raws;
      assert Dropped(sections, name) == w.current;
    }
  }

  /** With a stripped disease name, as the caller passes it, every chunk begins with that name. */
  lemma ChunksStartWithName(sections: seq<string>, name: string)
    requires Trimmed(name)
    ensures forall c | c in DiseaseChunks(sections, name) :: StartsWith(c, name)
  {
    EntryRawsOpen(sections, name);
    var raws := EntryRaws(sections, name);
    var chunks := DiseaseChunks(sections, name);
    forall c | c in chunks ensures StartsWith(c, name) {
      var k :| 0 <= k < |chunks| && chunks[k] == c;
      var raw := raws[k];
      assert raw in raws && c == Strip(raw);
      OpensChunkStartsWithName(raw, sections, name);
      StripKeepsTrimmedHead(name, raw);
    }
  }

  lemma OpensChunkStartsWithName(raw: string, sections: seq<string>, name: string)
    requires OpensChunk(raw, sections, name)
    ensures StartsWith(raw, name)
  {
    if StartsWith(raw, name + SectionBreak) {
      assert raw[..|name|] == (name + SectionBreak)[..|name|];
    } else {
      var i :| 0 <= i < |sections| && i % 2 == 1 && StartsWith(raw, name + " - " + sections[i] + SectionBreak);
      assert raw[..|name|] == (name + " - " + sections[i] + SectionBreak)[..|name|];
    }
  }

  // ---------------------------------------------------------------------------
  // `_better_medical_split`
  // ---------------------------------------------------------------------------

  /** The words that mark a table of contents or an index. */
  const Denylist: seq<string> := ["contents", "index", "volume", "chapter"]

  /** A stripped paragraph is kept when it has between 201 and 1499 characters and mentions no denylisted word in any case. */
  predicate KeepParagraph(paragraph: string) {
    200 < |paragraph| < 1500 && !exists k | k in Denylist :: Contains(Lower(paragraph), k)
  }

  /** The paragraph fallback: the kept paragraphs, stripped, in order. */
  function ParagraphDocs(paragraphs: seq<string>): seq<string> {
    Qualifying(StripEach(paragraphs), KeepParagraph)
  }

  /** A document of the fallback is exactly a stripped paragraph that passes the length and denylist test. */
  lemma ParagraphKept(paragraphs: seq<string>, doc: string)
    ensures doc in ParagraphDocs(paragraphs) <==>
              (exists i | 0 <= i < |paragraphs| :: doc == Strip(paragraphs[i])) && 200 < |doc| < 1500
              && forall k | k in Denylist :: !Contains(Lower(doc), k)
  {
    var stripped := StripEach(paragraphs);
    assert doc in ParagraphDocs(paragraphs) <==> doc in stripped && KeepParagraph(doc);
    if doc in stripped {
      var i :| 0 <= i < |stripped| && stripped[i] == doc;
      assert doc == Strip(paragraphs[i]);
    }
    if exists i | 0 <= i < |paragraphs| :: doc == Strip(paragraphs[i]) {
      var i :| 0 <= i < |paragraphs| && doc == Strip(paragraphs[i]);
      assert stripped[i] == doc;
    }
  }

  /**
   * The chunks of the `j`-th disease heading (the section at index
   * `2 * j + 1`): the heading stripped is the name; the section after it is
   * chunked only when it is longer than 100 characters.
   */
  function EntryChunks(sections: seq<string>, headerSplit: string -> seq<string>, j: nat): seq<string>
    requires 2 * j + 1 < |sections|
  {
    var name := Strip(sections[2 * j + 1]);
    var content := if 2 * j + 2 < |sections| then sections[2 * j + 2] else "";
    if |content| > 100 then DiseaseChunks(headerSplit(content), name) else []
  }

  /** The chunks of every disease heading, one list per heading, in order. */
  function Entries(sections: seq<string>, headerSplit: string -> seq<string>): (r: seq<seq<string>>)
    ensures |r| == |sections| / 2
  {
    seq(|sections| / 2, j requires 0 <= j < |sections| / 2 => EntryChunks(sections, headerSplit, j))
  }

  lemma EntryAt(sections: seq<string>, headerSplit: string -> seq<string>, j: nat)
    requires 2 * j + 1 < |sections|
    ensures var content := if 2 * j + 2 < |sections| then sections[2 * j + 2] else "";
      Entries(sections, headerSplit)[j] == if |content| > 100 then DiseaseChunks(headerSplit(content), Strip(sections[2 * j + 1])) else []
  {
    HalfBounds(|sections|, j);
    assert Entries(sections, headerSplit)[j] == EntryChunks(sections, headerSplit, j);
  }

  /** All documents: the disease chunks, then the paragraph fallback when there are fewer than 50 of them. */
  function BetterSplit(sections: seq<string>, paragraphs: seq<string>, headerSplit: string -> seq<string>): seq<string> {
    var docs := Concat(Entries(sections, headerSplit));
    if |docs| < 50 then docs + ParagraphDocs(paragraphs) else docs
  }

  /**
   * The fallback only appends: the disease chunks stay first and are all
   * there is when there are at least 50 of them; with fewer, the kept
   * paragraphs follow them.
   */
  lemma FallbackAppends(sections: seq<string>, paragraphs: seq<string>, headerSplit: string -> seq<string>)
    ensures var docs := Concat(Entries(sections, headerSplit));
      && docs <= BetterSplit(sections, paragraphs, headerSplit)
      && (|docs| >= 50 ==> BetterSplit(sections, paragraphs, headerSplit) == docs)
      && (|docs| < 50 ==> BetterSplit(sections, paragraphs, headerSplit)[|docs|..] == ParagraphDocs(paragraphs))
  {
    var docs := Concat(Entries(sections, headerSplit));
    if |docs| < 50 {
      assert (docs + ParagraphDocs(paragraphs))[|docs|..] == ParagraphDocs(paragraphs);
    }
  }

  /** `doc` begins with the stripped text of a heading whose entry is longer than 100 characters. */
  predicate NamedByHeading(sections: seq<string>, doc: string) {
    exists i | 0 <= i < |sections| - 1 && i % 2 == 1 :: |sections[i + 1]| > 100 && StartsWith(doc, Strip(sections[i]))
  }

  /**
   * Only odd-indexed sections are headings: every disease chunk begins with
   * the stripped text of an odd-indexed section whose following section is
   * longer than 100 characters.
   */
  lemma HeadingDocsNamed(sections: seq<string>, headerSplit: string -> seq<string>)
    ensures forall d | d in Concat(Entries(sections, headerSplit)) :: NamedByHeading(sections, d)
  {
    var entries := Entries(sections, headerSplit);
    forall d | d in Concat(entries) ensures NamedByHeading(sections, d) {
      ConcatMember(entries, d);
      var j :| 0 <= j < |entries| && d in entries[j];
      EntryChunksNamed(sections, headerSplit, j, d);
    }
  }

  lemma EntryChunksNamed(sections: seq<string>, headerSplit: string -> seq<string>, j: nat, d: string)
    requires 2 * j + 1 < |sections| && d in EntryChunks(sections, headerSplit, j)
    ensures NamedByHeading(sections, d)
    ensures StartsWith(d, Strip(sections[2 * j + 1]))
  {
    var i := 2 * j + 1;
    var content := if i + 1 < |sections| then sections[i + 1] else "";
    if |content| > 100 {
      var name := Strip(sections[i]);
      assert EntryChunks(sections, headerSplit, j) == DiseaseChunks(headerSplit(content), name);
      assert d in DiseaseChunks(headerSplit(content), name);
      ChunksStartWithName(headerSplit(content), name);
      assert StartsWith(d, name);
      HeadingIndexOdd(j);
      NamedBy(sections, d, i);
    }
  }

  /** The headings are the sections at the odd indices below `n`: there are `n / 2` of them. */
  lemma HalfBounds(n: nat, j: nat)
    ensures 2 * j + 1 < n ==> j < n / 2
    ensures 2 * j + 1 >= n && 2 * j <= n ==> j == n / 2
  {
  }

  lemma HeadingIndexOdd(j: nat)
    ensures (2 * j + 1) % 2 == 1
  {
  }

  lemma NamedBy(sections: seq<string>, doc: string, i: nat)
    requires 0 <= i < |sections| - 1 && i % 2 == 1 && |sections[i + 1]| > 100 && StartsWith(doc, Strip(sections[i]))
    ensures NamedByHeading(sections, doc)
  {
  }

  /**
   * `_better_medical_split(text)`, with the two regular-expression splits
   * of the text as inputs: the disease chunks, then the kept paragraphs
   * when there are fewer than 50 chunks.
   */
  method BetterMedicalSplit(sections: seq<string>, paragraphs: seq<string>, headerSplit: string -> seq<string>)
    returns (documents: seq<string>)
    ensures documents == BetterSplit(sections, paragraphs, headerSplit)
  {
    documents := SplitDiseases(sections, headerSplit);
    if |documents| < 50 {
      documents := AppendParagraphs(documents, paragraphs);
    }
  }

  /** The first loop of `_better_medical_split`: every disease heading with an entry longer than 100 characters, chunked. */
  method SplitDiseases(sections: seq<string>, headerSplit: string -> seq<string>) returns (documents: seq<string>)
    ensures documents == Concat(Entries(sections, headerSplit))
  {
    ghost var entries := Entries(sections, headerSplit);
    documents := [];
    var i := 1;
    ghost var j := 0;
    while i < |sections|
      invariant i == 2 * j + 1 && 2 * j <= |sections| && j <= |entries|
      invariant documents == Concat(entries[..j])
    {
      HalfBounds(|sections|, j);
      ConcatPrefixStep(entries, j);
      var chunks := ChunkEntry(sections, headerSplit, i, j);
      documents := documents + chunks;
      i, j := i + 2, j + 1;
    }
    HalfBounds(|sections|, j);
    assert entries[..j] == entries;
  }

  /** One turn of the first loop of `_better_medical_split`: the chunks of the heading at index `i`. */
  method ChunkEntry(sections: seq<string>, headerSplit: string -> seq<string>, i: nat, ghost j: nat) returns (chunks: seq<string>)
    requires i == 2 * j + 1 < |sections|
    ensures chunks == Entries(sections, headerSplit)[j]
  {
    EntryAt(sections, headerSplit, j);
    var name := Strip(sections[i]);
    var content := if i + 1 < |sections| then sections[i + 1] else "";
    chunks := [];
    if |content| != 0 && |content| > 100 {
      chunks := SplitDiseaseContent(headerSplit(content), name);
    }
  }

  /** The paragraph fallback of `_better_medical_split`: each paragraph, stripped, is appended when it is kept. */
  method AppendParagraphs(documents: seq<string>, paragraphs: seq<string>) returns (result: seq<string>)
    ensures result == documents + ParagraphDocs(paragraphs)
  {
    result := documents;
    var k := 0;
    while k < |paragraphs|
      invariant 0 <= k <= |paragraphs|
      invariant result == documents + ParagraphDocs(paragraphs[..k])
    {
      var paragraph := Strip(paragraphs[k]);
      ghost var before := ParagraphDocs(paragraphs[..k]);
      assert paragraphs[..k + 1] == paragraphs[..k] + [paragraphs[k]];
      ParagraphDocsSnoc(paragraphs[..k], paragraphs[k]);
      if 200 < |paragraph| < 1500 && !exists w | w in Denylist :: Contains(Lower(paragraph), w) {
        assert KeepParagraph(paragraph);
        AppendAssoc(documents, before, [paragraph]);
        result := result + [paragraph];
      } else {
        assert !KeepParagraph(paragraph);
        assert before + [] == before;
      }
      k := k + 1;
    }
    assert paragraphs[..k] == paragraphs;
  }

  /** The fallback over one more paragraph: the stripped paragraph is added at the end when it is kept. */
  lemma ParagraphDocsSnoc(paragraphs: seq<string>, paragraph: string)
    ensures ParagraphDocs(paragraphs + [paragraph]) ==
              ParagraphDocs(paragraphs) + (if KeepParagraph(Strip(paragraph)) then [Strip(paragraph)] else [])
  {
    StripEachSnoc(paragraphs, paragraph);
    QualifyingSnoc(StripEach(paragraphs), Strip(paragraph), KeepParagraph);
  }
}
