/**
 * `GroqMedicalChatbot` of chatbot/groq_chain.py: the hosted-model variant.
 * At start-up it checks the API key's format and probes a list of models
 * until one answers "READY"; per query it checks three emergency triggers,
 * then asks the hosted model (with cleaned reference text from the vector
 * store in the prompt) or answers from a keyword table and the reference
 * text. Every non-emergency answer ends with the disclaimer.
 */
module GroqChain {

  import opened Wrappers
  import opened Text
  import opened Rules
  import opened Inputs

  const Disclaimer: string := "\n\n⚠️ Consult healthcare professionals for medical advice."
  const EmergencySuffix: string := "\n\n📞 Call emergency services!"

  // ---------------------------------------------------------------------------
  // Start-up: the key check and the model probe
  // ---------------------------------------------------------------------------

  /** The prefix every usable API key starts with. */
  const KeyPrefix: string := "gsk_"

  /** The models tried at start-up, in this order. */
  const ModelNames: seq<string> := [
    "llama-3.1-8b-instant", "llama-3.1-70b-versatile", "llama-3.2-1b-preview",
    "llama-3.2-3b-preview", "llama-3.2-90b-preview"
  ]

  /** The word a working model must put in its reply to the test prompt. */
  const ReadyWord: string := "READY"

  /** The key is set, non-empty and starts with "gsk_"; anything else means local mode. */
  predicate UsableKey(apiKey: Option<string>) {
    apiKey.Some? && apiKey.value != "" && StartsWith(apiKey.value, KeyPrefix)
  }

  /** A model passes the probe when its reply to the test prompt contains "READY". */
  predicate Ready(reply: Completion) {
    reply.Reply? && Contains(reply.content, ReadyWord)
  }

  /**
   * The index of the first model whose probe reply is ready, `None` when no
   * model passes. `probe(m)` is the outcome of building a client for `m` and
   * sending it the test prompt.
   */
  function FirstReady(models: seq<string>, probe: string -> Completion): (r: Option<nat>)
    ensures r.None? <==> forall j | 0 <= j < |models| :: !Ready(probe(models[j]))
    ensures r.Some? ==> r.value < |models| && Ready(probe(models[r.value]))
                        && forall j | 0 <= j < r.value :: !Ready(probe(models[j]))
  {
    if models == [] then None
    else if Ready(probe(models[0])) then Some(0)
    else match FirstReady(models[1..], probe)
      case Some(j) => Some(j + 1)
      case None => None
  }

  /**
   * The bot's start-up state: whether the hosted model is in use, which
   * model the client was last built for (`self.llm`), and the vector store.
   */
  class GroqMedicalChatbot {

    var groqAvailable: bool
    var llm: Option<string>
    var store: Retrieval

    /** `__init__` and `initialize_components`: local mode first, then the probe, then the store. */
    constructor (apiKey: Option<string>, probe: string -> Completion, store: Retrieval)
      ensures this.store == store
      ensures groqAvailable <==> UsableKey(apiKey) && FirstReady(ModelNames, probe).Some?
      ensures !UsableKey(apiKey) ==> llm == None
      ensures UsableKey(apiKey) && FirstReady(ModelNames, probe).Some? ==> llm == Some(ModelNames[FirstReady(ModelNames, probe).value])
      ensures UsableKey(apiKey) && FirstReady(ModelNames, probe).None? ==> llm == Some(ModelNames[|ModelNames| - 1])
    {
      groqAvailable := false;
      llm := None;
      this.store := store;
      new;
      InitializeGroq(apiKey, probe);
    }

    /**
     * `_initialize_groq`: with an unusable key nothing changes; otherwise
     * each model in turn becomes the client and is probed, and the scan
     * stops at the first one that answers "READY", which switches the
     * hosted model on. When none answers, the client is left on the last
     * model tried and the bot stays as it was.
     */
    method InitializeGroq(apiKey: Option<string>, probe: string -> Completion)
      modifies this`groqAvailable, this`llm
      ensures !UsableKey(apiKey) ==> groqAvailable == old(groqAvailable) && llm == old(llm)
      ensures UsableKey(apiKey) && FirstReady(ModelNames, probe).Some? ==>
                groqAvailable && llm == Some(ModelNames[FirstReady(ModelNames, probe).value])
      ensures UsableKey(apiKey) && FirstReady(ModelNames, probe).None? ==>
                groqAvailable == old(groqAvailable) && llm == Some(ModelNames[|ModelNames| - 1])
    {
      if !UsableKey(apiKey) {
        return;
      }
      var i := 0;
      while i < |ModelNames|
        invariant 0 <= i <= |ModelNames|
        invariant forall j | 0 <= j < i :: !Ready(probe(ModelNames[j]))
        invariant groqAvailable == old(groqAvailable)
        invariant i == 0 ==> llm == old(llm)
        invariant i > 0 ==> llm == Some(ModelNames[i - 1])
      {
        llm := Some(ModelNames[i]);
        if Ready(probe(ModelNames[i])) {
          groqAvailable := true;
          return;
        }
        i := i + 1;
      }
    }

    /**
     * `get_response(user_message)`, with the hosted model's behaviour as
     * `complete`: an emergency alert is returned as it is; otherwise the
     * hosted model answers when it is in use, the basic responder when not,
     * and the answer ends with the disclaimer.
     */
    function GetResponse(message: string, complete: string -> Completion): (r: string)
      reads this
      ensures CheckEmergency(Lower(message)).Some? ==> r == CheckEmergency(Lower(message)).value
      ensures CheckEmergency(Lower(message)).None? ==> EndsWith(r, Disclaimer)
      ensures CheckEmergency(Lower(message)).None? && groqAvailable ==> r == GroqEnhancedResponse(message, store, complete)
      ensures CheckEmergency(Lower(message)).None? && !groqAvailable ==> r == BasicResponse(message, store)
    {
      match CheckEmergency(Lower(message))
      case Some(alert) => alert
      case None =>
        if groqAvailable then GroqEnhancedResponse(message, store, complete) else BasicResponse(message, store)
    }
  }

  /** An emergency short-circuits everything: neither the store nor the hosted model is consulted. */
  lemma EmergencyShortCircuits(bot: GroqMedicalChatbot, other: GroqMedicalChatbot, message: string,
                               complete: string -> Completion, otherComplete: string -> Completion)
    requires CheckEmergency(Lower(message)).Some?
    ensures bot.GetResponse(message, complete) == other.GetResponse(message, otherComplete)
    ensures !EndsWith(bot.GetResponse(message, complete), Disclaimer)
  {
    var r := bot.GetResponse(message, complete);
    assert r[|r| - 1] == '!';
    assert Disclaimer[|Disclaimer| - 1] == '.';
  }

  // ---------------------------------------------------------------------------
  // Emergencies
  // ---------------------------------------------------------------------------

  const EmergencyKeys: seq<string> := ["chest pain", "heart attack", "stroke"]
  const EmergencyAlerts: seq<string> := [
    "🚨 CHEST PAIN: Could indicate heart attack! Call emergency services immediately!",
    "🚨 HEART ATTACK: Call emergency services now! Symptoms: chest pain, shortness of breath.",
    "🚨 STROKE: Call emergency services! Look for face drooping, arm weakness, speech difficulty."
  ]
  const Emergencies: seq<Rule<string>> := Triggers(EmergencyKeys, EmergencyAlerts)

  /** `_check_medical_emergency(query)`: the query arrives lower-cased; the first trigger found wins. */
  function CheckEmergency(query: string): (r: Option<string>)
    ensures r.Some? ==> EndsWith(r.value, EmergencySuffix)
  {
    match Scan(Emergencies, query)
    case Some(alert) =>
      EndsWithConcat(alert, EmergencySuffix);
      Some(alert + EmergencySuffix)
    case None => None
  }

  /** An alert iff one of the three triggers occurs; the first in table order decides which. */
  lemma EmergencyIsFirstTrigger(query: string)
    ensures CheckEmergency(query).Some? <==> exists i | 0 <= i < |EmergencyKeys| :: Contains(query, EmergencyKeys[i])
    ensures forall i | 0 <= i < |EmergencyKeys| && Contains(query, EmergencyKeys[i])
                       && (forall j | 0 <= j < i :: !Contains(query, EmergencyKeys[j])) ::
              CheckEmergency(query) == Some(EmergencyAlerts[i] + EmergencySuffix)
  {
    TriggerScan(Emergencies, query);
  }

  // ---------------------------------------------------------------------------
  // Reference text from the vector store
  // ---------------------------------------------------------------------------

  /** A line is kept when it has more than 20 characters once stripped and does not mention "contents" in any case. */
  predicate KeepLine(line: string) {
    |Strip(line)| > 20 && !Contains(Lower(line), "contents")
  }

  /** The cleaned lines of one document: its `\n`-separated lines that are kept, stripped, in order. */
  function KeptLines(text: string): seq<string> {
    StripEach(Qualifying(SplitOn(text, '\n'), KeepLine))
  }

  /** Every cleaned line of a document is stripped, longer than 20 characters and free of "contents". */
  lemma KeptLinesClean(text: string)
    ensures forall line | line in KeptLines(text) :: Trimmed(line) && |line| > 20 && !Contains(Lower(line), "contents")
  {
    var kept := Qualifying(SplitOn(text, '\n'), KeepLine);
    forall i | 0 <= i < |kept| ensures !Contains(Lower(Strip(kept[i])), "contents") {
      if Contains(Lower(Strip(kept[i])), "contents") {
        ContainsAfterStrip(kept[i], "contents");
      }
    }
  }

  /** The cleaned lines of several documents, document by document, earlier documents first. */
  function CleanContent(docs: seq<string>): seq<string> {
    Flatten(docs, KeptLines)
  }

  /** Every cleaned line is stripped, longer than 20 characters and free of "contents" in any case. */
  lemma {:induction false} CleanLinesKept(docs: seq<string>)
    ensures forall line | line in CleanContent(docs) :: Trimmed(line) && |line| > 20 && !Contains(Lower(line), "contents")
  {
    if docs != [] {
      CleanLinesKept(docs[..|docs| - 1]);
      KeptLinesClean(docs[|docs| - 1]);
    }
  }

  /** The cleaned lines keep document order: those of earlier documents come first. */
  lemma DocumentOrder(first: seq<string>, second: seq<string>)
    ensures CleanContent(first + second) == CleanContent(first) + CleanContent(second)
  {
    FlattenAppend(first, second, KeptLines);
  }

  /**
   * `_get_medical_context(query)`, with the store's answer as `store`:
   * nothing without a store, when the search raises or finds nothing;
   * otherwise the cleaned lines of the two best documents joined by line
   * feeds, cut to 800 characters.
   */
  function MedicalContext(store: Retrieval): (r: Option<string>)
    ensures r.Some? <==> store.Ranked? && store.docs != []
    ensures r.Some? ==> |r.value| <= 800 && r.value <= Join("\n", CleanContent(TopK(store.docs, 2)))
    ensures r.Some? && |Join("\n", CleanContent(TopK(store.docs, 2)))| <= 800 ==>
              r.value == Join("\n", CleanContent(TopK(store.docs, 2)))
    ensures r.Some? && |Join("\n", CleanContent(TopK(store.docs, 2)))| > 800 ==> |r.value| == 800
  {
    match store
    case Ranked(ranking) =>
      var docs := TopK(ranking, 2);
      if docs != [] then Some(Take(Join("\n", CleanContent(docs)), 800)) else None
    case _ => None
  }

  /** `_get_medical_context`, with the loop that extends the cleaned lines document by document. */
  method GetMedicalContext(store: Retrieval) returns (context: Option<string>)
    ensures context == MedicalContext(store)
  {
    context := None;
    if store.Ranked? {
      var docs := TopK(store.docs, 2);
      if docs != [] {
        var clean: seq<string> := [];
        var i := 0;
        while i < |docs|
          invariant 0 <= i <= |docs|
          invariant clean == CleanContent(docs[..i])
        {
          ghost var next := docs[..i + 1];
          assert next[..i] == docs[..i] && next[i] == docs[i];
          assert CleanContent(next) == Flatten(next[..i], KeptLines) + KeptLines(next[i]);
          clean := clean + KeptLines(docs[i]);
          i := i + 1;
        }
        assert docs[..i] == docs;
        context := Some(Take(Join("\n", clean), 800));
      }
    }
  }

  /** Python's truth value of an optional string: present and non-empty. */
  predicate Truthy(context: Option<string>) {
    context.Some? && context.value != ""
  }

  // ---------------------------------------------------------------------------
  // The hosted-model answer
  // ---------------------------------------------------------------------------

  const PromptIntro: string := "You are a medical expert assistant. Answer this medical question clearly and helpfully.\n\nQuestion: "
  const ReferenceHeading: string := "Reference medical information:\n"
  const PromptRequest: string := "Please provide:\n- Clear, accurate answer\n- Simple explanations\n- Practical information\n- Important safety notes\n\nAnswer:"

  /**
   * The prompt of `_get_groq_enhanced_response`: the question, then a
   * reference block only when there is non-empty reference text, carrying at
   * most its first 500 characters, then the fixed request.
   */
  function GroqPrompt(question: string, context: Option<string>): (r: string)
    ensures StartsWith(r, PromptIntro + question + "\n\n")
    ensures EndsWith(r, PromptRequest)
    ensures !Truthy(context) ==> r == PromptIntro + question + "\n\n" + PromptRequest
    ensures Truthy(context) ==>
              |r| == |PromptIntro| + |question| + 2 + |ReferenceHeading| + |Take(context.value, 500)| + 2 + |PromptRequest|
    ensures Truthy(context) ==> |r| <= |PromptIntro| + |question| + 2 + |ReferenceHeading| + 500 + 2 + |PromptRequest|
  {
    var head := PromptIntro + question + "\n\n";
    var reference := if Truthy(context) then ReferenceHeading + Take(context.value, 500) + "\n\n" else "";
    assert (head + reference + PromptRequest)[..|head|] == head;
    EndsWithConcat(head + reference, PromptRequest);
    head + reference + PromptRequest
  }

  /** With reference text, the prompt quotes its first 500 characters right after the question. */
  lemma PromptQuotesContext(question: string, context: Option<string>)
    requires Truthy(context)
    ensures OccursAt(GroqPrompt(question, context), ReferenceHeading + Take(context.value, 500) + "\n\n",
                     |PromptIntro| + |question| + 2)
  {
    var head := PromptIntro + question + "\n\n";
    var block := ReferenceHeading + Take(context.value, 500) + "\n\n";
    var r := GroqPrompt(question, context);
    assert r == head + block + PromptRequest;
    assert r[|head|..|head| + |block|] == block;
  }

  /**
   * `_get_groq_enhanced_response(question)`: the hosted model's reply with
   * the disclaimer; when the call fails, exactly the basic answer.
   */
  function GroqEnhancedResponse(question: string, store: Retrieval, complete: string -> Completion): (r: string)
    ensures EndsWith(r, Disclaimer)
    ensures complete(GroqPrompt(question, MedicalContext(store))).CallFailed? ==> r == BasicResponse(question, store)
    ensures complete(GroqPrompt(question, MedicalContext(store))).Reply? ==>
              r == complete(GroqPrompt(question, MedicalContext(store))).content + Disclaimer
  {
    match complete(GroqPrompt(question, MedicalContext(store)))
    case Reply(content) =>
      EndsWithConcat(content, Disclaimer);
      content + Disclaimer
    case CallFailed => BasicResponse(question, store)
  }

  // ---------------------------------------------------------------------------
  // The basic answer
  // ---------------------------------------------------------------------------

  const CompareText: string :=
    "**Medication vs Lifestyle for Diabetes**\n\n**Medications:**\n• Insulin injections (Type 1)\n• Metformin and other pills (Type 2)\n• Quick blood sugar control\n• Essential for some cases\n\n**Lifestyle Changes:**\n• Healthy diet low in sugar\n• Regular exercise\n• Weight management\n• Long-term health benefits\n\n**Best Approach:** Combination of both for comprehensive diabetes management."
  const DiabetesText: string :=
    "Diabetes management combines medications (insulin, metformin) with lifestyle changes (diet, exercise) for optimal blood sugar control."
  const HeartText: string :=
    "Heart disease treatment includes medications, medical procedures, and lifestyle modifications like healthy eating and regular physical activity."
  const CancerText: string :=
    "Cancer treatment options include surgery, chemotherapy, radiation therapy, immunotherapy, and targeted therapies depending on cancer type and stage."
  const DefaultText: string :=
    "I can provide medical information from authoritative sources. Please consult healthcare professionals for personalized medical advice."

  /** Each canned answer carries the disclaimer at its end, as written out in the source. */
  const CompareAnswer: string := CompareText + Disclaimer
  const DiabetesAnswer: string := DiabetesText + Disclaimer
  const HeartAnswer: string := HeartText + Disclaimer
  const CancerAnswer: string := CancerText + Disclaimer
  const DefaultAnswer: string := DefaultText + Disclaimer

  /** The single-topic rows of the keyword chain, after the 'diabetes'-and-'compare' test. */
  const Topics: seq<Rule<string>> := Table([["diabetes"], ["heart"], ["cancer"]], [DiabetesText, HeartText, CancerText])

  /** The scan of the single-topic rows: 'diabetes', then 'heart', then 'cancer'. */
  lemma TopicsScan(text: string)
    ensures Contains(text, "diabetes") ==> Scan(Topics, text) == Some(DiabetesText)
    ensures !Contains(text, "diabetes") && Contains(text, "heart") ==> Scan(Topics, text) == Some(HeartText)
    ensures !Contains(text, "diabetes") && !Contains(text, "heart") && Contains(text, "cancer") ==> Scan(Topics, text) == Some(CancerText)
    ensures !Contains(text, "diabetes") && !Contains(text, "heart") && !Contains(text, "cancer") ==> Scan(Topics, text) == None
  {
    assert Fires(Topics[0], text) <==> Contains(text, "diabetes");
    assert Fires(Topics[1], text) <==> Contains(text, "heart");
    assert Fires(Topics[2], text) <==> Contains(text, "cancer");
  }

  /**
   * The last branch of `_get_basic_response`: the first sentence of the
   * reference text longer than 40 characters, cut to 250, then "..." and
   * the disclaimer; without such a sentence, or without reference text,
   * the default answer.
   */
  function ContextAnswer(context: Option<string>): (r: string)
    ensures EndsWith(r, Disclaimer)
    ensures !Truthy(context) ==> r == DefaultAnswer
    ensures Truthy(context) ==> var sentences := SplitSentences(context.value);
              && (forall i | 0 <= i < |sentences| && |sentences[i]| > 40 && (forall j | 0 <= j < i :: |sentences[j]| <= 40) ::
                    r == Take(sentences[i], 250) + "..." + Disclaimer)
              && ((forall i | 0 <= i < |sentences| :: |sentences[i]| <= 40) ==> r == DefaultAnswer)
    ensures r != DefaultAnswer ==> |r| <= 253 + |Disclaimer|
  {
    EndsWithConcat(DefaultText, Disclaimer);
    if Truthy(context) then
      match FirstLongerThan(SplitSentences(context.value), 40)
      case Some(sentence) =>
        EndsWithConcat(Take(sentence, 250) + "...", Disclaimer);
        Take(sentence, 250) + "..." + Disclaimer
      case None => DefaultAnswer
    else DefaultAnswer
  }

  /**
   * `_get_basic_response(question)`: 'diabetes' with 'compare' first, then
   * 'diabetes', 'heart', 'cancer', then the reference text; every answer
   * ends with the disclaimer.
   */
  function BasicResponse(question: string, store: Retrieval): (r: string)
    ensures EndsWith(r, Disclaimer)
    ensures Contains(Lower(question), "diabetes") && Contains(Lower(question), "compare") ==> r == CompareAnswer
    ensures Contains(Lower(question), "diabetes") && !Contains(Lower(question), "compare") ==> r == DiabetesAnswer
    ensures !Contains(Lower(question), "diabetes") && Contains(Lower(question), "heart") ==> r == HeartAnswer
    ensures (!Contains(Lower(question), "diabetes") && !Contains(Lower(question), "heart")
             && Contains(Lower(question), "cancer")) ==> r == CancerAnswer
    ensures (!Contains(Lower(question), "diabetes") && !Contains(Lower(question), "heart")
             && !Contains(Lower(question), "cancer")) ==> r == ContextAnswer(MedicalContext(store))
  {
    var questionLower := Lower(question);
    TopicsScan(questionLower);
    if Contains(questionLower, "diabetes") && Contains(questionLower, "compare") then
      EndsWithConcat(CompareText, Disclaimer);
      CompareAnswer
    else match Scan(Topics, questionLower)
      case Some(text) =>
        EndsWithConcat(text, Disclaimer);
        text + Disclaimer
      case None => ContextAnswer(MedicalContext(store))
  }
}
