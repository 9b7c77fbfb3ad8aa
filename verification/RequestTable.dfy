/** The completed-request table of `dispatch`: at most 2048 records, the least recently used evicted
    first (environment_rpc.py, `_request_records`). */
module RequestTable {
  import opened Wrappers

  const CAPACITY: nat := 2048

  datatype Record = Record(id: nat, principal: nat, digest: nat, response: nat)

  // ----- the table -------------------------------------------------------------------

  /** Oldest first. */
  type Table = seq<Record>

  function Ids(table: Table): seq<nat> {
    seq(|table|, i requires 0 <= i < |table| => table[i].id)
  }

  function Find(table: Table, id: nat): (r: Option<Record>)
    ensures r.Some? ==> r.value in table && r.value.id == id
  {
    if table == [] then None
    else if table[|table| - 1].id == id then Some(table[|table| - 1])
    else Find(table[..|table| - 1], id)
  }

  function Without(table: Table, id: nat): Table {
    if table == [] then []
    else if table[|table| - 1].id == id then Without(table[..|table| - 1], id)
    else Without(table[..|table| - 1], id) + [table[|table| - 1]]
  }

  /** The newest `cap` elements. */
  function Suffix<T>(s: seq<T>, cap: nat): seq<T> {
    if |s| <= cap then s else s[|s| - cap..]
  }

  /** A new or renewed record goes last and the oldest beyond the capacity go. */
  function Stored(table: Table, record: Record, cap: nat): Table {
    Suffix(Without(table, record.id) + [record], cap)
  }

  /** A replay moves its record last. */
  function Touched(table: Table, id: nat): Table {
    if Find(table, id).Some? then Without(table, id) + [Find(table, id).value] else table
  }

  class Requests {
    var entries: Table

    constructor ()
      ensures entries == []
    {
      entries := [];
    }

    method Lookup(id: nat) returns (found: Option<Record>)
      ensures found == Find(entries, id)
    {
      var n := |entries|;
      assert entries[..n] == entries;
      while n > 0
        invariant n <= |entries|
        invariant Find(entries, id) == Find(entries[..n], id)
      {
        assert entries[..n][..n - 1] == entries[..n - 1];
        if entries[n - 1].id == id {
          return Some(entries[n - 1]);
        }
        n := n - 1;
      }
      found := None;
    }

    /** `move_to_end`. */
    method Touch(id: nat)
      requires Find(entries, id).Some?
      modifies this
      ensures entries == Touched(old(entries), id)
    {
      var record := Lookup(id);
      entries := Without(entries, id) + [record.value];
    }

    /** Recording a response, with the eviction loop. */
    method Store(record: Record)
      modifies this
      ensures entries == Stored(old(entries), record, CAPACITY)
    {
      entries := Without(entries, record.id) + [record];
      ghost var all := entries;
      while |entries| > CAPACITY
        invariant entries == Suffix(all, |entries|) && |entries| <= |all|
        invariant |entries| >= CAPACITY || entries == all
      {
        assert entries[1..] == Suffix(all, |entries| - 1);
        entries := entries[1..];
      }
    }
  }

  // ----- sequential histories --------------------------------------------------------------

  /** What happens to one call, in the order of the critical sections that decide it. */
  datatype Event =
    | Executed(record: Record)
    | Replayed(record: Record)                                // the stored record is selected
    | Conflicted(id: nat, principal: nat, digest: nat)

  function Applied(table: Table, e: Event, cap: nat): Table {
    match e
    case Executed(record) => Stored(table, record, cap)
    case Replayed(record) => Touched(table, record.id)
    case Conflicted(_, _, _) => table
  }

  function TableOf(log: seq<Event>, cap: nat): Table {
    if log == [] then [] else Applied(TableOf(log[..|log| - 1], cap), log[|log| - 1], cap)
  }

  /** The memo table's answer to a call: execute what is not stored, replay what is stored under the
      same principal and digest, refuse the rest. */
  predicate Allowed(table: Table, e: Event) {
    match e
    case Executed(record) => Find(table, record.id) == None
    case Replayed(record) => Find(table, record.id) == Some(record)
    case Conflicted(id, principal, digest) =>
      var found := Find(table, id);
      found.Some? && (found.value.principal != principal || found.value.digest != digest)
  }

  predicate Legal(log: seq<Event>, cap: nat) {
    log == [] || (Legal(log[..|log| - 1], cap) && Allowed(TableOf(log[..|log| - 1], cap), log[|log| - 1]))
  }

  /** The id whose place in the order an event renews. */
  function TouchedId(e: Event): Option<nat> {
    match e
    case Executed(record) => Some(record.id)
    case Replayed(record) => Some(record.id)
    case Conflicted(_, _, _) => None
  }

  /** The distinct ids touched by the events from the i-th on. */
  function IdsFrom(log: seq<Event>, i: nat): set<nat>
    requires i <= |log|
    decreases |log| - i
  {
    if i == |log| then {}
    else if TouchedId(log[i]).Some? then {TouchedId(log[i]).value} + IdsFrom(log, i + 1)
    else IdsFrom(log, i + 1)
  }

  /** Where the id was last touched. */
  function LastTouch(log: seq<Event>, id: nat): (r: Option<nat>)
    ensures r.Some? ==> r.value < |log| && TouchedId(log[r.value]) == Some(id)
  {
    if log == [] then None
    else if TouchedId(log[|log| - 1]) == Some(id) then Some(|log| - 1)
    else LastTouch(log[..|log| - 1], id)
  }

  /** The record under which the id was last executed. */
  function LastExecuted(log: seq<Event>, id: nat): Option<Record> {
    if log == [] then None
    else if log[|log| - 1].Executed? && log[|log| - 1].record.id == id then Some(log[|log| - 1].record)
    else LastExecuted(log[..|log| - 1], id)
  }

  // ----- recency order without a bound -----------------------------------------------------

  function Drop(order: seq<nat>, id: nat): seq<nat> {
    if order == [] then []
    else if order[|order| - 1] == id then Drop(order[..|order| - 1], id)
    else Drop(order[..|order| - 1], id) + [order[|order| - 1]]
  }

  /** All ids ever touched, by their last touch. */
  function Recency(log: seq<Event>): seq<nat> {
    if log == [] then []
    else
      var before := Recency(log[..|log| - 1]);
      match TouchedId(log[|log| - 1])
      case None => before
      case Some(id) => Drop(before, id) + [id]
  }

  predicate Distinct(order: seq<nat>) {
    forall i, j :: 0 <= i < j < |order| ==> order[i] != order[j]
  }

  lemma DistinctAppend(order: seq<nat>, x: nat)
    ensures Distinct(order + [x]) <==> Distinct(order) && x !in order
  {
    if Distinct(order + [x]) {
      forall i | 0 <= i < |order| ensures order[i] != x {
        assert (order + [x])[i] != (order + [x])[|order|];
      }
      forall i, j | 0 <= i < j < |order| ensures order[i] != order[j] {
        assert (order + [x])[i] != (order + [x])[j];
      }
    }
  }

  lemma {:induction false} DropSpec(order: seq<nat>, id: nat)
    ensures forall x :: x in Drop(order, id) <==> x in order && x != id
    ensures Distinct(order) ==> Distinct(Drop(order, id))
    ensures id !in order ==> Drop(order, id) == order
  {
    if order != [] {
      var before, last := order[..|order| - 1], order[|order| - 1];
      DropSpec(before, id);
      assert order == before + [last];
      DistinctAppend(before, last);
      DistinctAppend(Drop(before, id), last);
    }
  }

  lemma {:induction false} DropConcat(a: seq<nat>, b: seq<nat>, id: nat)
    ensures Drop(a + b, id) == Drop(a, id) + Drop(b, id)
  {
    if b == [] {
      assert a + b == a;
    } else {
      var b' := b[..|b| - 1];
      assert (a + b)[..|a + b| - 1] == a + b';
      DropConcat(a, b', id);
    }
  }

  lemma {:induction false} DropLength(order: seq<nat>, id: nat)
    requires Distinct(order) && id in order
    ensures |Drop(order, id)| == |order| - 1
  {
    var before, last := order[..|order| - 1], order[|order| - 1];
    assert order == before + [last];
    DropSpec(before, id);
    if last != id {
      DropLength(before, id);
    }
  }

  lemma {:induction false} IdsOfWithout(table: Table, id: nat)
    ensures Ids(Without(table, id)) == Drop(Ids(table), id)
  {
    if table != [] {
      var before := table[..|table| - 1];
      assert Ids(table)[..|table| - 1] == Ids(before);
      IdsOfWithout(before, id);
    }
  }

  lemma {:induction false} FindSpec(table: Table, id: nat)
    ensures Find(table, id).Some? <==> id in Ids(table)
  {
    if table != [] {
      var before := table[..|table| - 1];
      assert Ids(table) == Ids(before) + [table[|table| - 1].id];
      FindSpec(before, id);
    }
  }

  lemma SuffixIds(table: Table, cap: nat)
    ensures Ids(Suffix(table, cap)) == Suffix(Ids(table), cap)
  {
  }

  lemma SuffixDistinct(order: seq<nat>, cap: nat)
    requires Distinct(order)
    ensures Distinct(Suffix(order, cap))
  {
  }

  lemma SuffixOfConcat(a: seq<nat>, b: seq<nat>, cap: nat)
    requires |b| >= cap
    ensures Suffix(a + b, cap) == Suffix(b, cap)
  {
  }

  /** Touching an id commutes with keeping the newest ones. */
  lemma TouchSuffix(order: seq<nat>, id: nat, cap: nat)
    requires Distinct(order) && cap > 0
    ensures Suffix(Drop(Suffix(order, cap), id) + [id], cap) == Suffix(Drop(order, id) + [id], cap)
  {
    if |order| > cap {
      var kept := Suffix(order, cap);
      var gone := order[..|order| - cap];
      assert order == gone + kept;
      DropConcat(gone, kept, id);
      SuffixDistinct(order, cap);
      DropSpec(kept, id);
      if id in kept {
        DropLength(kept, id);
      }
      assert Drop(order, id) + [id] == Drop(gone, id) + (Drop(kept, id) + [id]);
      SuffixOfConcat(Drop(gone, id), Drop(kept, id) + [id], cap);
    }
  }

  lemma TouchIsDistinct(order: seq<nat>, id: nat)
    requires Distinct(order)
    ensures Distinct(Drop(order, id) + [id])
  {
    DropSpec(order, id);
    DistinctAppend(Drop(order, id), id);
  }

  /** One touch, of an id that is new or stored, keeps the table the newest part of the order. */
  lemma TouchKeepsNewest(table: Table, order: seq<nat>, record: Record, cap: nat)
    requires cap > 0 && Distinct(order) && Ids(table) == Suffix(order, cap)
    ensures Ids(Stored(table, record, cap)) == Suffix(Drop(order, record.id) + [record.id], cap)
  {
    var id := record.id;
    TouchSuffix(order, id, cap);
    IdsOfWithout(table, id);
    assert Ids(Without(table, id) + [record]) == Ids(Without(table, id)) + [id];
    SuffixIds(Without(table, id) + [record], cap);
  }

  /** Renewing a stored record evicts nothing. */
  lemma RenewalEvictsNothing(table: Table, record: Record, cap: nat)
    requires Distinct(Ids(table)) && |table| <= cap && Find(table, record.id).Some?
    ensures Stored(table, record, cap) == Without(table, record.id) + [record]
  {
    FindSpec(table, record.id);
    IdsOfWithout(table, record.id);
    DropLength(Ids(table), record.id);
    assert |Ids(Without(table, record.id))| == |Without(table, record.id)|;
  }

  /** The ids of the bounded table are the newest ones of the unbounded order. */
  lemma {:induction false} TableIsNewest(log: seq<Event>, cap: nat)
    requires cap > 0 && Legal(log, cap)
    ensures Distinct(Recency(log)) && Ids(TableOf(log, cap)) == Suffix(Recency(log), cap)
  {
    if log != [] {
      var before, e := log[..|log| - 1], log[|log| - 1];
      TableIsNewest(before, cap);
      match e
      case Conflicted(_, _, _) =>
      case Executed(record) =>
        TouchIsDistinct(Recency(before), record.id);
        TouchKeepsNewest(TableOf(before, cap), Recency(before), record, cap);
      case Replayed(record) =>
        TouchIsDistinct(Recency(before), record.id);
        TouchKeepsNewest(TableOf(before, cap), Recency(before), record, cap);
        SuffixDistinct(Recency(before), cap);
        RenewalEvictsNothing(TableOf(before, cap), record, cap);
    }
  }

  lemma {:induction false} IdsFromSpec(log: seq<Event>, i: nat, x: nat)
    requires i <= |log|
    ensures x in IdsFrom(log, i) <==> LastTouch(log, x).Some? && LastTouch(log, x).value >= i
    decreases |log| - i
  {
    LastTouchSpec(log, x);
    if i < |log| {
      IdsFromSpec(log, i + 1, x);
    }
  }

  lemma {:induction false} LastTouchSpec(log: seq<Event>, x: nat)
    ensures forall j :: 0 <= j < |log| && TouchedId(log[j]) == Some(x) ==>
              LastTouch(log, x).Some? && j <= LastTouch(log, x).value
  {
    if log != [] {
      LastTouchSpec(log[..|log| - 1], x);
    }
  }

  /** Each id was touched after the ones before it. */
  predicate ByLastTouch(log: seq<Event>, order: seq<nat>) {
    && (forall i :: 0 <= i < |order| ==> LastTouch(log, order[i]).Some?)
    && (forall i, j :: 0 <= i < j < |order| ==>
          LastTouch(log, order[i]).value < LastTouch(log, order[j]).value)
  }

  lemma {:induction false} DropByLastTouch(log: seq<Event>, order: seq<nat>, id: nat)
    requires ByLastTouch(log, order)
    ensures ByLastTouch(log, Drop(order, id))
  {
    if order != [] {
      var before, last := order[..|order| - 1], order[|order| - 1];
      DropByLastTouch(log, before, id);
      DropSpec(before, id);
      if last != id {
        var d := Drop(before, id);
        forall i | 0 <= i < |d| ensures LastTouch(log, d[i]).value < LastTouch(log, last).value {
          assert d[i] in before;
        }
      }
    }
  }

  lemma TouchedLast(before: seq<Event>, order: seq<nat>, e: Event, id: nat)
    requires ByLastTouch(before, order) && id !in order && TouchedId(e) == Some(id)
    ensures ByLastTouch(before + [e], order + [id])
  {
    var log := before + [e];
    assert log[..|before|] == before;
    forall i | 0 <= i < |order| ensures LastTouch(log, order[i]) == LastTouch(before, order[i]) {
      assert order[i] in order;
    }
  }

  /** The order lists ids by their last touch. */
  lemma {:induction false} RecencyIsByLastTouch(log: seq<Event>)
    ensures ByLastTouch(log, Recency(log))
  {
    if log != [] {
      var before, e := log[..|log| - 1], log[|log| - 1];
      assert log == before + [e];
      RecencyIsByLastTouch(before);
      if TouchedId(e).Some? {
        var id, order := TouchedId(e).value, Recency(before);
        DropSpec(order, id);
        DropByLastTouch(before, order, id);
        TouchedLast(before, Drop(order, id), e, id);
      } else {
        assert forall x :: LastTouch(log, x) == LastTouch(before, x);
      }
    }
  }

  lemma {:induction false} RecencyHasTheTouched(log: seq<Event>, x: nat)
    ensures x in Recency(log) <==> LastTouch(log, x).Some?
  {
    if log != [] {
      var before, e := log[..|log| - 1], log[|log| - 1];
      RecencyHasTheTouched(before, x);
      if TouchedId(e).Some? {
        DropSpec(Recency(before), TouchedId(e).value);
      }
    }
  }

  function SetOf(order: seq<nat>): set<nat> {
    set x <- order
  }

  lemma {:induction false} SetOfDistinct(order: seq<nat>)
    requires Distinct(order)
    ensures |SetOf(order)| == |order|
  {
    if order != [] {
      var before, last := order[..|order| - 1], order[|order| - 1];
      assert order == before + [last];
      SetOfDistinct(before);
      assert SetOf(order) == SetOf(before) + {last};
    }
  }

  /** How many other ids were touched after the last touch of the id. */
  function OthersSince(log: seq<Event>, id: nat): nat
    requires LastTouch(log, id).Some?
  {
    |IdsFrom(log, LastTouch(log, id).value + 1)|
  }

  lemma LaterInOrder(log: seq<Event>, p: nat, x: nat)
    requires Distinct(Recency(log)) && p < |Recency(log)|
    ensures var at := LastTouch(log, Recency(log)[p]);
            at.Some? && (x in IdsFrom(log, at.value + 1) <==> x in SetOf(Recency(log)[p + 1..]))
  {
    var order := Recency(log);
    RecencyIsByLastTouch(log);
    RecencyHasTheTouched(log, x);
    IdsFromSpec(log, LastTouch(log, order[p]).value + 1, x);
    if x in order {
      var q :| 0 <= q < |order| && order[q] == x;
      if q > p {
        assert order[p + 1..][q - p - 1] == x;
      }
    }
  }

  lemma PlaceInOrder(log: seq<Event>, p: nat)
    requires Distinct(Recency(log)) && p < |Recency(log)|
    ensures var id := Recency(log)[p];
            LastTouch(log, id).Some? && OthersSince(log, id) == |Recency(log)| - p - 1
  {
    var order := Recency(log);
    RecencyIsByLastTouch(log);
    var later, rest := IdsFrom(log, LastTouch(log, order[p]).value + 1), order[p + 1..];
    forall x: nat ensures x in later <==> x in SetOf(rest) {
      LaterInOrder(log, p, x);
    }
    assert later == SetOf(rest);
    SetOfDistinct(rest);
  }

  /** A request id is stored exactly while fewer than `cap` distinct other ids have been touched
      since it last was. */
  lemma StoredExactlyWhileRecent(log: seq<Event>, cap: nat, id: nat)
    requires cap > 0 && Legal(log, cap)
    ensures Find(TableOf(log, cap), id).Some? <==> LastTouch(log, id).Some? && OthersSince(log, id) < cap
  {
    TableIsNewest(log, cap);
    FindSpec(TableOf(log, cap), id);
    RecencyHasTheTouched(log, id);
    var order := Recency(log);
    if id in order {
      var p :| 0 <= p < |order| && order[p] == id;
      PlaceInOrder(log, p);
      if |order| > cap && p >= |order| - cap {
        assert Suffix(order, cap)[p - (|order| - cap)] == id;
      }
    }
  }

  lemma {:induction false} FindWithout(table: Table, id: nat, other: nat)
    ensures Find(Without(table, id), other) == if other == id then None else Find(table, other)
  {
    if table != [] {
      var before := table[..|table| - 1];
      FindWithout(before, id, other);
      if table[|table| - 1].id != id {
        assert Without(table, id)[..|Without(table, id)| - 1] == Without(before, id);
      }
    }
  }

  lemma FindAppended(table: Table, record: Record, id: nat)
    ensures Find(table + [record], id) == if record.id == id then Some(record) else Find(table, id)
  {
    assert (table + [record])[..|table|] == table;
  }

  lemma {:induction false} FindInSuffix(table: Table, cap: nat, id: nat)
    ensures Find(Suffix(table, cap), id).Some? ==> Find(Suffix(table, cap), id) == Find(table, id)
  {
    if |table| > cap && cap > 0 {
      var before := table[..|table| - 1];
      assert Suffix(table, cap)[..cap - 1] == Suffix(before, cap - 1);
      FindInSuffix(before, cap - 1, id);
    }
  }

  /** What is stored under an id is the record of its last execution. */
  lemma {:induction false} StoredIsLastExecuted(log: seq<Event>, cap: nat, id: nat)
    requires Legal(log, cap)
    ensures Find(TableOf(log, cap), id).Some? ==> Find(TableOf(log, cap), id) == LastExecuted(log, id)
  {
    if log != [] {
      var before, e := log[..|log| - 1], log[|log| - 1];
      var table := TableOf(before, cap);
      StoredIsLastExecuted(before, cap, id);
      match e
      case Conflicted(_, _, _) =>
      case Executed(record) =>
        FindInSuffix(Without(table, record.id) + [record], cap, id);
        FindAppended(Without(table, record.id), record, id);
        FindWithout(table, record.id, id);
      case Replayed(record) =>
        FindAppended(Without(table, record.id), record, id);
        FindWithout(table, record.id, id);
    }
  }

  lemma {:induction false} LegalPrefix(log: seq<Event>, cap: nat, k: nat)
    requires Legal(log, cap) && k < |log|
    ensures Legal(log[..k], cap) && Allowed(TableOf(log[..k], cap), log[k])
  {
    if k == |log| - 1 {
    } else {
      assert log[..|log| - 1][..k] == log[..k];
      LegalPrefix(log[..|log| - 1], cap, k);
    }
  }

  /** An id is executed again only after at least `cap` distinct other ids were touched since its
      own last touch. */
  lemma ExecutedAgainOnlyAfterEviction(log: seq<Event>, cap: nat, i: nat, j: nat)
    requires cap > 0 && Legal(log, cap) && i < j < |log|
    requires log[i].Executed? && log[j].Executed? && log[i].record.id == log[j].record.id
    ensures var id := log[j].record.id;
            && LastTouch(log[..j], id).Some? && i <= LastTouch(log[..j], id).value
            && OthersSince(log[..j], id) >= cap
  {
    LegalPrefix(log, cap, j);
    var id := log[j].record.id;
    assert log[..j][i] == log[i];
    LastTouchSpec(log[..j], id);
    StoredExactlyWhileRecent(log[..j], cap, id);
  }

  /** Until then a call with the same principal and digest gets the response of the last execution,
      and any other call with the id is refused. */
  lemma RecentCallsAreAnsweredFromTheTable(log: seq<Event>, cap: nat, k: nat, id: nat)
    requires cap > 0 && Legal(log, cap) && k < |log|
    requires LastTouch(log[..k], id).Some? && OthersSince(log[..k], id) < cap
    ensures !(log[k].Executed? && log[k].record.id == id)
    ensures log[k].Replayed? && log[k].record.id == id ==> Some(log[k].record) == LastExecuted(log[..k], id)
    ensures log[k].Conflicted? && log[k].id == id ==>
              LastExecuted(log[..k], id).Some?
              && (LastExecuted(log[..k], id).value.principal, LastExecuted(log[..k], id).value.digest)
                 != (log[k].principal, log[k].digest)
  {
    LegalPrefix(log, cap, k);
    StoredExactlyWhileRecent(log[..k], cap, id);
    StoredIsLastExecuted(log[..k], cap, id);
  }
}
