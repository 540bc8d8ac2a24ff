/**
 * `EnhancedMedicalChatbot` of chatbot/chain.py: five emergency triggers,
 * then reference text from the three best documents, answered by the
 * hosted model when it is in use and there is reference text, and by the
 * first long sentence of that text or a keyword table otherwise; every
 * non-emergency answer ends with the disclaimer.
 */
module Chain {

  import opened Wrappers
  import opened Text
  import opened Rules
  import opened Inputs

  const Disclaimer: string := "\n\n⚠️ Consult healthcare professionals for medical advice."
  const EmergencySuffix: string := "\n\n📞 Call emergency services!"

  const EmergencyKeys: seq<string> := ["chest pain", "heart attack", "stroke", "difficulty breathing", "suicide"]
  const EmergencyAlerts: seq<string> := [
    "🚨 CHEST PAIN: Could indicate heart attack. Call emergency services!",
    "🚨 HEART ATTACK: Call emergency services immediately!",
    "🚨 STROKE: Call emergency services! Look for face drooping, arm weakness.",
    "🚨 BREATHING DIFFICULTY: Emergency! Call for help!",
    "🚨 Call emergency services or crisis helpline immediately!"
  ]
  const Emergencies: seq<Rule<string>> := Triggers(EmergencyKeys, EmergencyAlerts)

  /** `_check_medical_emergency(query)`: the query arrives lower-cased; the first trigger found wins. */
  function CheckEmergency(query: string): (r: Option<string>)
    ensures r.Some? ==> EndsWith(r.value, EmergencySuffix)
  {
    match Scan(Emergencies, query)
    case Some(alert) =>
      EndsWithConcat(alert, EmergencySuffix);
      Some(alert + EmergencySuffix)
    case None => None
  }

  /** An alert iff one of the five triggers occurs; the first in table order decides which. */
  lemma EmergencyIsFirstTrigger(query: string)
    ensures CheckEmergency(query).Some? <==> exists i | 0 <= i < |EmergencyKeys| :: Contains(query, EmergencyKeys[i])
    ensures forall i | 0 <= i < |EmergencyKeys| && Contains(query, EmergencyKeys[i])
                       && (forall j | 0 <= j < i :: !Contains(query, EmergencyKeys[j])) ::
              CheckEmergency(query) == Some(EmergencyAlerts[i] + EmergencySuffix)
  {
    TriggerScan(Emergencies, query);
  }

  /** The separator between documents in the reference text. */
  const DocumentBreak: string := "\n\n"

  /**
   * `_get_medical_context(query)`, with the store's answer as `store`:
   * nothing without a store, when the search raises or finds nothing;
   * otherwise the three best documents joined by blank lines, cut to 2000
   * characters.
   */
  function MedicalContext(store: Retrieval): (r: Option<string>)
    ensures r.Some? <==> store.Ranked? && store.docs != []
    ensures r.Some? ==> |r.value| <= 2000 && r.value <= Join(DocumentBreak, TopK(store.docs, 3))
    ensures r.Some? && |Join(DocumentBreak, TopK(store.docs, 3))| <= 2000 ==> r.value == Join(DocumentBreak, TopK(store.docs, 3))
    ensures r.Some? && |Join(DocumentBreak, TopK(store.docs, 3))| > 2000 ==> |r.value| == 2000
  {
    match store
    case Ranked(ranking) =>
      var docs := TopK(ranking, 3);
      if docs != [] then Some(Take(Join(DocumentBreak, docs), 2000)) else None
    case _ => None
  }

  /** The reference text starts with the best document, and holds all of it when the text is not cut. */
  lemma ContextStartsWithBestDocument(ranking: seq<string>)
    requires ranking != []
    ensures MedicalContext(Ranked(ranking)).Some?
    ensures var context := MedicalContext(Ranked(ranking)).value;
      context <= ranking[0] || ranking[0] <= context
  {
    var docs := TopK(ranking, 3);
    assert docs[0] == ranking[0];
    var joined := Join(DocumentBreak, docs);
    assert ranking[0] <= joined;
  }

  /** Python's truth value of an optional string: present and non-empty. */
  predicate Truthy(context: Option<string>) {
    context.Some? && context.value != ""
  }

  const DiabetesAnswer: string := "Diabetes affects blood sugar regulation. Type 1 requires insulin; Type 2 can be managed with lifestyle changes."
  const HeartAnswer: string := "Heart disease includes conditions like coronary artery disease. Prevention involves healthy lifestyle choices."
  const CancerAnswer: string := "Cancer involves abnormal cell growth. Treatments include surgery, chemotherapy, and radiation therapy."
  const DefaultAnswer: string := "I can provide information about medical conditions from authoritative sources."

  /** The keyword fallbacks of `_get_basic_response`, in priority order. */
  const Topics: seq<Rule<string>> := Table([["diabetes"], ["heart"], ["cancer"]], [DiabetesAnswer, HeartAnswer, CancerAnswer])

  /**
   * `_get_basic_response(medical_context, question)`: the first sentence of
   * the reference text longer than 50 characters, cut to 400 with "..."
   * iff it was longer; without reference text or such a sentence, the
   * keyword table 'diabetes' > 'heart' > 'cancer' > default.
   */
  function BasicResponse(context: Option<string>, question: string): (r: string)
    ensures Truthy(context) ==> var sentences := SplitSentences(context.value);
              forall i | 0 <= i < |sentences| && |sentences[i]| > 50 && (forall j | 0 <= j < i :: |sentences[j]| <= 50) ::
                r == Clip(sentences[i], 400) && |r| <= 403
    ensures (!Truthy(context) || forall i | 0 <= i < |SplitSentences(context.value)| :: |SplitSentences(context.value)[i]| <= 50) ==>
              r == KeywordAnswer(question)
  {
    if Truthy(context) then
      match FirstLongerThan(SplitSentences(context.value), 50)
      case Some(sentence) => Clip(sentence, 400)
      case None => KeywordAnswer(question)
    else KeywordAnswer(question)
  }

  /** The keyword part of `_get_basic_response`: 'diabetes' first, then 'heart', then 'cancer', else the default. */
  function KeywordAnswer(question: string): (r: string)
    ensures Contains(Lower(question), "diabetes") ==> r == DiabetesAnswer
    ensures !Contains(Lower(question), "diabetes") && Contains(Lower(question), "heart") ==> r == HeartAnswer
    ensures (!Contains(Lower(question), "diabetes") && !Contains(Lower(question), "heart")
             && Contains(Lower(question), "cancer")) ==> r == CancerAnswer
    ensures (!Contains(Lower(question), "diabetes") && !Contains(Lower(question), "heart")
             && !Contains(Lower(question), "cancer")) ==> r == DefaultAnswer
  {
    var questionLower := Lower(question);
    assert Fires(Topics[0], questionLower) <==> Contains(questionLower, "diabetes");
    assert Fires(Topics[1], questionLower) <==> Contains(questionLower, "heart");
    assert Fires(Topics[2], questionLower) <==> Contains(questionLower, "cancer");
    ScanOr(Topics, questionLower, DefaultAnswer)
  }

  /** The prompt of `_get_groq_enhanced_response`: the whole reference text, then the question. */
  function EnhancedPrompt(context: string, question: string): (r: string)
    ensures OccursAt(r, context, |PromptIntro|)
    ensures OccursAt(r, question, |PromptIntro| + |context| + |QuestionLabel|)
  {
    var r := PromptIntro + context + QuestionLabel + question + PromptRequest;
    assert r[|PromptIntro|..|PromptIntro| + |context|] == context;
    assert r[|PromptIntro| + |context| + |QuestionLabel|..|PromptIntro| + |context| + |QuestionLabel| + |question|] == question;
    r
  }

  const PromptIntro: string := "You are a medical assistant. Use the provided medical information to answer the question clearly and concisely.\n\nMEDICAL INFORMATION:\n"
  const QuestionLabel: string := "\n\nQUESTION: "
  const PromptRequest: string := "\n\nPlease provide:\n1. A clear, direct answer to the question\n2. Key points in simple language\n3. Important safety information\n4. Reference that this is from a medical encyclopedia\n\nKeep the response under 300 words and very easy to understand."

  /**
   * `_get_groq_enhanced_response(question, medical_context)`: the hosted
   * model's reply as it is; when the call fails, exactly the basic answer
   * for the same reference text and question.
   */
  function EnhancedResponse(question: string, context: string, complete: string -> Completion): (r: string)
    ensures complete(EnhancedPrompt(context, question)).CallFailed? ==> r == BasicResponse(Some(context), question)
    ensures complete(EnhancedPrompt(context, question)).Reply? ==> r == complete(EnhancedPrompt(context, question)).content
  {
    match complete(EnhancedPrompt(context, question))
    case Reply(content) => content
    case CallFailed => BasicResponse(Some(context), question)
  }

  /**
   * `get_response(user_message)`, with the start-up flag `groqAvailable`,
   * the store's answer and the hosted model's behaviour as inputs: an
   * emergency alert is returned as it is; the hosted model is asked only
   * when it is in use and there is non-empty reference text; every other
   * answer is the basic one; both end with the disclaimer.
   */
  function GetResponse(message: string, groqAvailable: bool, store: Retrieval, complete: string -> Completion): (r: string)
    ensures CheckEmergency(Lower(message)).Some? ==> r == CheckEmergency(Lower(message)).value
    ensures CheckEmergency(Lower(message)).None? ==> EndsWith(r, Disclaimer)
    ensures CheckEmergency(Lower(message)).None? && groqAvailable && Truthy(MedicalContext(store)) ==>
              r == EnhancedResponse(message, MedicalContext(store).value, complete) + Disclaimer
    ensures CheckEmergency(Lower(message)).None? && !(groqAvailable && Truthy(MedicalContext(store))) ==>
              r == BasicResponse(MedicalContext(store), message) + Disclaimer
  {
    match CheckEmergency(Lower(message))
    case Some(alert) => alert
    case None =>
      var context := MedicalContext(store);
      var answer := if groqAvailable && Truthy(context) then EnhancedResponse(message, context.value, complete)
                    else BasicResponse(context, message);
      EndsWithConcat(answer, Disclaimer);
      answer + Disclaimer
  }

  /** An emergency short-circuits everything: neither the store nor the hosted model is consulted. */
  lemma EmergencyShortCircuits(message: string, groqAvailable: bool, store: Retrieval, complete: string -> Completion,
                               otherAvailable: bool, otherStore: Retrieval, otherComplete: string -> Completion)
    requires CheckEmergency(Lower(message)).Some?
    ensures GetResponse(message, groqAvailable, store, complete) == GetResponse(message, otherAvailable, otherStore, otherComplete)
    ensures !EndsWith(GetResponse(message, groqAvailable, store, complete), Disclaimer)
  {
    var r := GetResponse(message, groqAvailable, store, complete);
    assert r[|r| - 1] == '!';
    assert Disclaimer[|Disclaimer| - 1] == '.';
  }

  /** Without the hosted model the answer does not depend on what the hosted model would say. */
  lemma LocalModeIgnoresModel(message: string, store: Retrieval, complete: string -> Completion, otherComplete: string -> Completion)
    ensures GetResponse(message, false, store, complete) == GetResponse(message, false, store, otherComplete)
  {
  }

  /** When the hosted model fails, the answer is the one local mode gives. */
  lemma FailedCallFallsBack(message: string, store: Retrieval, complete: string -> Completion, anything: string -> Completion)
    requires Truthy(MedicalContext(store))
    requires complete(EnhancedPrompt(MedicalContext(store).value, message)).CallFailed?
    ensures GetResponse(message, true, store, complete) == GetResponse(message, false, store, anything)
  {
  }
}
