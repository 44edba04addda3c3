/** The provider-side status of an effect and the merge rule that orders incoming reports. */
module ProviderStatus {
  import opened Wrappers
  import Text

  /** The five values the provider_status column may hold. */
  datatype Report = Starting | Processing | Succeeded | Failed | Canceled {

    predicate Terminal() {
      Succeeded? || Unsuccessful()
    }

    /** The operation ended without producing a result. */
    predicate Unsuccessful() {
      Failed? || Canceled?
    }

    /** The order table, which covers exactly the in-flight statuses. */
    function Order(): nat
      requires !Terminal()
    {
      if Starting? then 0 else 1
    }

    /** The stored spelling. */
    function Name(): string {
      match this
      case Starting => "starting"
      case Processing => "processing"
      case Succeeded => "succeeded"
      case Failed => "failed"
      case Canceled => "canceled"
    }
  }

  /** Normalize raw input and look it up among the valid spellings. */
  function Parse(raw: string): Option<Report> {
    var incoming := Text.Lower(Text.Strip(raw));
    if incoming == "starting" then Some(Starting)
    else if incoming == "processing" then Some(Processing)
    else if incoming == "succeeded" then Some(Succeeded)
    else if incoming == "failed" then Some(Failed)
    else if incoming == "canceled" then Some(Canceled)
    else None
  }

  /** Input is read as a status exactly when it is that status' spelling, in any case and with any
      surrounding whitespace. */
  lemma ParseIff(raw: string, r: Report)
    ensures Parse(raw) == Some(r) <==> Text.Lower(Text.Strip(raw)) == r.Name()
  {
    NamesDiffer(r);
  }

  lemma NamesDiffer(r: Report)
    ensures forall q: Report :: q.Name() == r.Name() ==> q == r
  {
    var first := r.Name()[0];
    var length := |r.Name()|;
    assert forall q: Report :: q.Name() == r.Name() ==> |q.Name()| == length && q.Name()[0] == first;
  }

  /** Every stored spelling is accepted again and denotes itself. */
  lemma ParseName(r: Report)
    ensures Parse(r.Name()) == Some(r)
  {
    ParseSpelling(r, r.Name());
  }

  lemma ParseSpelling(r: Report, s: string)
    requires s == r.Name()
    ensures Parse(s) == Some(r)
  {
    assert forall i :: 0 <= i < |s| ==> 'a' <= s[i] <= 'z';
    Text.LowercaseWordIsNormal(s);
  }

  /** Combine the stored status with a valid incoming report. */
  function Merge(current: Option<Report>, incoming: Report): Report {
    if current.None? then incoming
    else if current.value.Terminal() then current.value
    else if incoming.Terminal() then incoming
    else if incoming.Order() >= current.value.Order() then incoming
    else current.value
  }

  /** How far a stored status has advanced. */
  function Rank(s: Option<Report>): nat {
    match s
    case None => 0
    case Some(Starting) => 1
    case Some(Processing) => 2
    case Some(Succeeded) => 4
    case Some(_) => 3
  }

  /** Merging never regresses, keeps a terminal status, reflects what was reported,
      and absorbs a repeated report. */
  lemma MergeAdvances(current: Option<Report>, incoming: Report)
    ensures
      var m := Merge(current, incoming);
      && Rank(current) <= Rank(Some(m))
      && (Rank(current) == Rank(Some(m)) ==> current == Some(m))
      && (current.Some? && current.value.Terminal() ==> m == current.value)
      && (m.Terminal() || Rank(Some(incoming)) <= Rank(Some(m)))
      && (incoming.Terminal() ==> m.Terminal())
      && Merge(Some(m), incoming) == m
  {
  }

  /** Reports applied one after another, oldest first. */
  function Fold(reports: seq<Report>): Option<Report> {
    if reports == [] then None
    else Some(Merge(Fold(reports[..|reports| - 1]), reports[|reports| - 1]))
  }

  /** `k` is the position of the first terminal report. */
  ghost predicate FirstTerminal(reports: seq<Report>, k: int) {
    && 0 <= k < |reports|
    && reports[k].Terminal()
    && forall i :: 0 <= i < k ==> !reports[i].Terminal()
  }

  /** No report is terminal and `k` is the position of one with the highest order. */
  ghost predicate HighestInFlight(reports: seq<Report>, k: int) {
    && 0 <= k < |reports|
    && (forall i :: 0 <= i < |reports| ==> !reports[i].Terminal())
    && forall i :: 0 <= i < |reports| ==> reports[i].Order() <= reports[k].Order()
  }

  /** Folding any non-empty sequence of reports stores the first terminal one,
      or else the highest-ordered one. */
  lemma {:induction false} FoldIsFirstTerminalOrHighest(reports: seq<Report>) returns (k: nat)
    requires reports != []
    ensures FirstTerminal(reports, k) || HighestInFlight(reports, k)
    ensures Fold(reports) == Some(reports[k])
  {
    var n := |reports| - 1;
    var prefix := reports[..n];
    k := n;
    if n > 0 {
      var k0 := FoldIsFirstTerminalOrHighest(prefix);
      if prefix[k0].Terminal() || (!reports[n].Terminal() && reports[n].Order() < prefix[k0].Order()) {
        k := k0;
      }
    }
  }

  ghost predicate SameReports(a: seq<Report>, b: seq<Report>) {
    forall r :: r in a <==> r in b
  }

  ghost predicate OneTerminal(reports: seq<Report>) {
    forall x, y :: x in reports && y in reports && x.Terminal() && y.Terminal() ==> x == y
  }

  /** Reordering and duplicating reports does not matter as long as the provider reported
      at most one distinct terminal status. */
  lemma DeliveryOrderIrrelevant(a: seq<Report>, b: seq<Report>)
    requires SameReports(a, b) && OneTerminal(a)
    ensures Fold(a) == Fold(b)
  {
    assert b != [] ==> b[0] in a;
    if a != [] {
      assert a[0] in b;
      var i := FoldIsFirstTerminalOrHighest(a);
      var j := FoldIsFirstTerminalOrHighest(b);
      assert a[i] in b && b[j] in a;
    }
  }

  /** With two distinct terminal reports the order does matter: the first one wins. */
  lemma TerminalConflictDependsOnOrder(x: Report, y: Report)
    requires x.Terminal() && y.Terminal()
    ensures Fold([x, y]) == Some(x)
    ensures Fold([x, y]) == Fold([y, x]) <==> x == y
  {
    assert [x, y][..1] == [x] && [y, x][..1] == [y];
    assert Fold([x]) == Some(x) && Fold([y]) == Some(y);
  }
}
