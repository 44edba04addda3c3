/** Public pipeline events and the topology the read models are derived from. */
module PipelineEvents {
  import opened Wrappers

  /** One event of the log. A text field holds str(event.get(name) or ""), so "" stands for a missing
      value; numeric fields are None unless the event carries a number of the accepted type. */
  datatype Event = Event(
    eventType: string,
    eventId: string,
    stageId: string,
    stageLabel: string,
    itemId: string,
    creatorId: string,
    nestedCreatorId: string,
    nestedItemId: string,
    attempt: Option<int>,
    status: string,
    node: string,
    operationId: string,
    labelText: string,
    error: string,
    message: string,
    completedUnits: Option<int>,
    totalUnits: Option<int>,
    occurredAt: Option<string>)

  /** The stage ids with their labels, the stage of each node, and the node that completes a stage. */
  datatype Topology = Topology(
    stageLabels: map<string, string>,
    nodeStage: map<string, string>,
    terminalNode: map<string, string>,
    talkingHeadNodes: set<string>)

  /** Python's str(n). */
  function Decimal(n: int): string
    decreases if n < 0 then 1 else 0, if n < 0 then -n else n
  {
    if n < 0 then "-" + Decimal(-n)
    else if n < 10 then ["0123456789"[n]]
    else Decimal(n / 10) + ["0123456789"[n % 10]]
  }

  /** The number that decimal digits, with an optional sign, denote. */
  function Number(s: string): int {
    if s == "" then 0
    else if s[0] == '-' then -Number(s[1..])
    else Number(s[..|s| - 1]) * 10 + (s[|s| - 1] as int - '0' as int)
  }

  lemma DigitOf(n: int)
    requires 0 <= n < 10
    ensures "0123456789"[n] as int == '0' as int + n
  {
  }

  lemma {:induction false} DigitsDenote(n: nat)
    ensures Number(Decimal(n)) == n && Decimal(n) != "" && Decimal(n)[0] != '-'
  {
    if n < 10 {
      DigitOf(n);
      assert Decimal(n)[..0] == "";
    } else {
      DigitsDenote(n / 10);
      DigitOf(n % 10);
      assert Decimal(n)[..|Decimal(n)| - 1] == Decimal(n / 10);
    }
  }

  /** The text of a number denotes it. */
  lemma DecimalDenotes(n: int)
    ensures Number(Decimal(n)) == n
  {
    if n < 0 {
      DigitsDenote(-n);
      assert Decimal(n)[1..] == Decimal(-n);
    } else {
      DigitsDenote(n);
    }
  }

  /** Python's `x or None` on text. */
  function Present(s: string): Option<string> {
    if s == "" then None else Some(s)
  }

  /** Python's `x or y` on text. */
  function Or(s: string, t: string): string {
    if s != "" then s else t
  }

  function Lookup(m: map<string, string>, k: string): string {
    if k in m then m[k] else ""
  }
}
