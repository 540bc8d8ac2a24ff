/**
 * `MedicalChatbot` of chatbot/updated_chain.py: eight emergency triggers
 * with their own call-to-action; otherwise the two best documents of the
 * built-in knowledge base as they are, or a symptom keyword table when the
 * search finds nothing; every such answer ends with the medical disclaimer.
 */
module UpdatedChain {

  import opened Wrappers
  import opened Text
  import opened Rules
  import opened Inputs

  const Disclaimer: string := "\n\n---\n⚠️ **Medical Disclaimer**: I am an AI assistant. Always consult healthcare professionals for medical advice."
  const ErrorReply: string := "I can provide general health information. For medical advice, please consult a healthcare professional."
  const EmergencySuffix: string := "\n\n📞 Call your local emergency number RIGHT NOW!"

  const EmergencyKeys: seq<string> := [
    "chest pain", "heart attack", "stroke", "difficulty breathing", "severe bleeding",
    "unconscious", "suicide", "kill myself"
  ]
  const EmergencyAlerts: seq<string> := [
    "🚨 CHEST PAIN could be a heart attack. Call emergency services immediately!",
    "🚨 HEART ATTACK: Call emergency services now! Symptoms include chest pain and shortness of breath.",
    "🚨 STROKE: Call emergency services! Look for face drooping, arm weakness, speech difficulty.",
    "🚨 BREATHING PROBLEMS: This is an emergency! Call for help immediately!",
    "🚨 SEVERE BLEEDING: Apply pressure and call emergency services!",
    "🚨 UNCONSCIOUS person: Check breathing and call emergency services!",
    "🚨 Please call emergency services or a crisis helpline immediately! Your life matters!",
    "🚨 Call for help now! Emergency services and crisis lines are available 24/7!"
  ]
  const Emergencies: seq<Rule<string>> := Triggers(EmergencyKeys, EmergencyAlerts)

  /** `_check_medical_emergency(query)`: lower-cases the query itself; the first trigger found wins. */
  function CheckEmergency(query: string): (r: Option<string>)
    ensures r.Some? ==> EndsWith(r.value, EmergencySuffix)
  {
    match Scan(Emergencies, Lower(query))
    case Some(alert) =>
      EndsWithConcat(alert, EmergencySuffix);
      Some(alert + EmergencySuffix)
    case None => None
  }

  /**
   * An alert iff one of the eight triggers occurs in the lower-cased query;
   * the first in table order decides which, followed by the local
   * emergency-number call to action.
   */
  lemma EmergencyIsFirstTrigger(query: string)
    ensures CheckEmergency(query).Some? <==> exists i | 0 <= i < |EmergencyKeys| :: Contains(Lower(query), EmergencyKeys[i])
    ensures forall i | 0 <= i < |EmergencyKeys| && Contains(Lower(query), EmergencyKeys[i])
                       && (forall j | 0 <= j < i :: !Contains(Lower(query), EmergencyKeys[j])) ::
              CheckEmergency(query) == Some(EmergencyAlerts[i] + EmergencySuffix)
  {
    TriggerScan(Emergencies, Lower(query));
  }

  /** Upper case in the query makes no difference: the check lower-cases it itself. */
  lemma EmergencyIgnoresCase(query: string)
    ensures CheckEmergency(Lower(query)) == CheckEmergency(query)
  {
    LowerIdempotent(query);
  }

  const AdditionalLabel: string := "\n\nAdditional information: "

  /**
   * `_format_medical_response(docs, user_question)`: the best document as
   * it is; with a second document, that one follows under "Additional
   * information"; any further documents are ignored.
   */
  function FormatMedicalResponse(docs: seq<string>): (r: string)
    requires docs != []
    ensures StartsWith(r, docs[0])
    ensures |docs| == 1 ==> r == docs[0]
    ensures |docs| >= 2 ==> r[|docs[0]|..] == AdditionalLabel + docs[1]
  {
    if |docs| > 1 then
      var r := docs[0] + AdditionalLabel + docs[1];
      assert r[|docs[0]|..] == AdditionalLabel + docs[1];
      r
    else docs[0]
  }

  /** Only the first two documents matter. */
  lemma FurtherDocumentsIgnored(docs: seq<string>, more: seq<string>)
    requires |docs| >= 2
    ensures FormatMedicalResponse(docs + more) == FormatMedicalResponse(docs)
  {
    assert (docs + more)[0] == docs[0] && (docs + more)[1] == docs[1];
  }

  const HeadacheAnswer: string := "Headaches can have various causes. Rest in a quiet room, stay hydrated, and consider over-the-counter pain relief. See a doctor for severe or frequent headaches."
  const FeverAnswer: string := "Fever helps your body fight infection. Rest and drink plenty of fluids. Contact a doctor if fever is over 103°F or lasts more than 3 days."
  const ColdAnswer: string := "For cold and flu: get plenty of rest, drink fluids, and use over-the-counter medications for symptom relief. See a doctor if symptoms are severe."
  const PainAnswer: string := "Pain management depends on the cause. Rest the affected area and use over-the-counter pain relievers as directed. Seek medical help for severe pain."
  const DefaultAnswer: string := "I can provide general health information. For specific medical concerns, please consult with a healthcare professional."

  /** The keyword groups of `_get_fallback_response`, in priority order, and their answers. */
  const SymptomKeywords: seq<seq<string>> := [["headache", "head pain"], ["fever", "temperature"], ["cold", "flu", "cough"], ["pain", "hurt"]]
  const Symptoms: seq<Rule<string>> := Table(SymptomKeywords, [HeadacheAnswer, FeverAnswer, ColdAnswer, PainAnswer])

  /** `any(word in text for word in words)`. */
  predicate MentionsAny(text: string, words: seq<string>) {
    exists w | w in words :: Contains(text, w)
  }

  /**
   * `_get_fallback_response(query)`: headache > fever > cold/flu > pain >
   * default, tested on the lower-cased query.
   */
  function FallbackResponse(query: string): (r: string)
    ensures MentionsAny(Lower(query), ["headache", "head pain"]) ==> r == HeadacheAnswer
    ensures !MentionsAny(Lower(query), ["headache", "head pain"]) && MentionsAny(Lower(query), ["fever", "temperature"]) ==>
              r == FeverAnswer
    ensures (!MentionsAny(Lower(query), ["headache", "head pain"]) && !MentionsAny(Lower(query), ["fever", "temperature"])
             && MentionsAny(Lower(query), ["cold", "flu", "cough"])) ==> r == ColdAnswer
    ensures (!MentionsAny(Lower(query), ["headache", "head pain"]) && !MentionsAny(Lower(query), ["fever", "temperature"])
             && !MentionsAny(Lower(query), ["cold", "flu", "cough"]) && MentionsAny(Lower(query), ["pain", "hurt"])) ==> r == PainAnswer
    ensures (!MentionsAny(Lower(query), ["headache", "head pain"]) && !MentionsAny(Lower(query), ["fever", "temperature"])
             && !MentionsAny(Lower(query), ["cold", "flu", "cough"]) && !MentionsAny(Lower(query), ["pain", "hurt"])) ==> r == DefaultAnswer
  {
    var queryLower := Lower(query);
    assert Fires(Symptoms[0], queryLower) <==> MentionsAny(queryLower, ["headache", "head pain"]);
    assert Fires(Symptoms[1], queryLower) <==> MentionsAny(queryLower, ["fever", "temperature"]);
    assert Fires(Symptoms[2], queryLower) <==> MentionsAny(queryLower, ["cold", "flu", "cough"]);
    assert Fires(Symptoms[3], queryLower) <==> MentionsAny(queryLower, ["pain", "hurt"]);
    ScanOr(Symptoms, queryLower, DefaultAnswer)
  }

  /** "head pain" also mentions "pain", but the headache row comes first. */
  lemma HeadPainIsHeadache()
    ensures FallbackResponse("I have head pain") == HeadacheAnswer
  {
    var q := "i have head pain";
    assert Lower("I have head pain") == q;
    assert q == "i have " + "head pain";
    assert q[7..16] == "head pain";
    ContainsAt(q, "head pain", 7);
    assert Fires(Symptoms[0], q);
  }

  /**
   * `get_response(user_message)`, with the store's answer as an input: an
   * emergency alert is returned as it is; a failing search gives the generic
   * reply; otherwise the documents, or the keyword answer when there are
   * none, followed by the medical disclaimer.
   */
  function GetResponse(message: string, retrieval: Retrieval): (r: string)
    ensures CheckEmergency(message).Some? ==> r == CheckEmergency(message).value
    ensures CheckEmergency(message).None? && !retrieval.Ranked? ==> r == ErrorReply
    ensures CheckEmergency(message).None? && retrieval.Ranked? ==> EndsWith(r, Disclaimer)
    ensures CheckEmergency(message).None? && retrieval.Ranked? && retrieval.docs != [] ==>
              r == FormatMedicalResponse(TopK(retrieval.docs, 2)) + Disclaimer && StartsWith(r, retrieval.docs[0])
    ensures CheckEmergency(message).None? && retrieval.Ranked? && retrieval.docs == [] ==> r == FallbackResponse(message) + Disclaimer
  {
    match CheckEmergency(message)
    case Some(alert) => alert
    case None =>
      match retrieval
      case Ranked(ranking) =>
        var docs := TopK(ranking, 2);
        var answer := if docs != [] then FormatMedicalResponse(docs) else FallbackResponse(message);
        EndsWithConcat(answer, Disclaimer);
        answer + Disclaimer
      case _ => ErrorReply
  }

  /** An emergency short-circuits everything: the store is never consulted and no disclaimer is added. */
  lemma EmergencyShortCircuits(message: string, retrieval: Retrieval, other: Retrieval)
    requires CheckEmergency(message).Some?
    ensures GetResponse(message, retrieval) == GetResponse(message, other)
    ensures !EndsWith(GetResponse(message, retrieval), Disclaimer)
  {
    var r := GetResponse(message, retrieval);
    assert r[|r| - 1] == '!';
    assert Disclaimer[|Disclaimer| - 1] == '.';
  }
}
