/**
 * First-match keyword tables. Every chatbot variant answers from ordered
 * tables: the emergency triggers (a Python dict scanned in insertion order,
 * returning on the first key found in the query) and the keyword fallbacks
 * (an `if`/`elif` chain of `any(word in query for word in [...])` tests).
 * Both are the same thing: an ordered list of rows, each firing when one of
 * its keywords occurs in the text, answered by the first row that fires.
 */
module Rules {

  import opened Wrappers
  import opened Text

  /** One row of a table: fires when any of `keywords` occurs in the text; `payload` is its answer. */
  datatype Rule<T> = Rule(keywords: seq<string>, payload: T)

  predicate Fires<T>(rule: Rule<T>, text: string) {
    exists k | k in rule.keywords :: Contains(text, k)
  }

  /** The table whose row `i` has the keywords `keywords[i]` and the answer `payloads[i]`. */
  function Table<T>(keywords: seq<seq<string>>, payloads: seq<T>): (r: seq<Rule<T>>)
    requires |keywords| == |payloads|
    ensures |r| == |keywords|
    ensures forall i | 0 <= i < |r| :: r[i] == Rule(keywords[i], payloads[i])
  {
    seq(|keywords|, i requires 0 <= i < |keywords| => Rule(keywords[i], payloads[i]))
  }

  /** The single-keyword table whose row `i` is the trigger `keys[i]` answered by `replies[i]`. */
  function Triggers<T>(keys: seq<string>, replies: seq<T>): (r: seq<Rule<T>>)
    requires |keys| == |replies|
    ensures |r| == |keys| && SingleKeyed(r)
    ensures forall i | 0 <= i < |r| :: r[i] == Rule([keys[i]], replies[i])
  {
    seq(|keys|, i requires 0 <= i < |keys| => Rule([keys[i]], replies[i]))
  }

  /** Every row has exactly one keyword, as in the emergency tables. */
  predicate SingleKeyed<T>(rules: seq<Rule<T>>) {
    forall i | 0 <= i < |rules| :: |rules[i].keywords| == 1
  }

  /**
   * On a single-keyword table the scan is the first-match substring search:
   * nothing when no key occurs in the text, otherwise the answer of the
   * first key (in table order) that occurs.
   */
  lemma TriggerScan<T>(rules: seq<Rule<T>>, text: string)
    requires SingleKeyed(rules)
    ensures Scan(rules, text).None? <==> forall i | 0 <= i < |rules| :: !Contains(text, rules[i].keywords[0])
    ensures forall i | 0 <= i < |rules| && Contains(text, rules[i].keywords[0]) && (forall j | 0 <= j < i :: !Contains(text, rules[j].keywords[0])) ::
              Scan(rules, text) == Some(rules[i].payload)
  {
    forall i | 0 <= i < |rules| ensures Fires(rules[i], text) <==> Contains(text, rules[i].keywords[0]) {
      assert rules[i].keywords == [rules[i].keywords[0]];
    }
  }

  /** Any keyword of a row that occurs in the text makes the row fire. */
  lemma KeywordFires<T>(rule: Rule<T>, k: string, text: string)
    requires k in rule.keywords && Contains(text, k)
    ensures Fires(rule, text)
  {
  }

  /**
   * The answer of the first row that fires, or `None` when no row does:
   * the early-return scan of the source.
   */
  function Scan<T>(rules: seq<Rule<T>>, text: string): (r: Option<T>)
    ensures r.None? <==> forall i | 0 <= i < |rules| :: !Fires(rules[i], text)
    ensures forall i | 0 <= i < |rules| && Fires(rules[i], text) && (forall j | 0 <= j < i :: !Fires(rules[j], text)) ::
              r == Some(rules[i].payload)
  {
    if rules == [] then None
    else if Fires(rules[0], text) then Some(rules[0].payload)
    else Scan(rules[1..], text)
  }

  /** The answer of row `i` when it is the first row that fires. */
  lemma ScanAt<T>(rules: seq<Rule<T>>, text: string, i: nat)
    requires i < |rules| && Fires(rules[i], text)
    requires forall j | 0 <= j < i :: !Fires(rules[j], text)
    ensures Scan(rules, text) == Some(rules[i].payload)
  {
  }

  /** Rows after the first one that fires are never consulted. */
  lemma {:induction false} ScanIgnoresLaterRows<T>(rules: seq<Rule<T>>, more: seq<Rule<T>>, text: string)
    requires exists i | 0 <= i < |rules| :: Fires(rules[i], text)
    ensures Scan(rules + more, text) == Scan(rules, text)
  {
    if !Fires(rules[0], text) {
      assert (rules + more)[1..] == rules[1..] + more;
      ScanIgnoresLaterRows(rules[1..], more, text);
    }
  }

  /** The table's answer, or `default` when no row fires: the final `else` of the chain. */
  function ScanOr<T>(rules: seq<Rule<T>>, text: string, default: T): T {
    match Scan(rules, text)
    case Some(v) => v
    case None => default
  }
}
