/**
 The two-lane history generator and its paged validator.

 An event ID is the digest of its row, its predecessor and its parents included, so the row stands for
 its ID. `stamp` stands for the request and text derived from the stream index.
 */
module History {
  import opened Basics

  const LANE_PERIOD: nat := 16

  datatype Parent = Parent(event: Row, role: nat, ordinal: nat)

  datatype Row = Row(role: nat, ordinal: nat, sequence: nat, stamp: nat, previous: Option<Row>, parents: seq<Parent>)

  /** Per lane: the next ordinal, and the last event. */
  datatype Heads = Heads(frontier0: nat, frontier1: nat, tail0: Option<Row>, tail1: Option<Row>)

  /** A row as a history page reports it. */
  datatype Item = Item(id: Row, role: nat, ordinal: nat, sequence: nat, stamp: nat)

  function ItemOf(row: Row): Item {
    Item(row, row.role, row.ordinal, row.sequence, row.stamp)
  }

  // ----- the generator -----

  function RoleAt(i: nat): nat {
    if i % LANE_PERIOD == 0 then 0 else 1
  }

  function Genesis(role: nat): Row {
    Row(role, 0, role, 0, None, [])
  }

  const ORACLE: Heads := Heads(1, 1, Some(Genesis(0)), Some(Genesis(1)))

  function Count(h: Heads): int {
    h.frontier0 + h.frontier1 - 2
  }

  /** The lane's last event, once the lane has one beyond its genesis. */
  function LaneParent(frontier: nat, tail: Option<Row>, role: nat): Option<seq<Parent>> {
    if frontier <= 1 then Some([])
    else if tail.None? then None
    else Some([Parent(tail.value, role, frontier - 1)])
  }

  /** `next_row`: the row and the heads after it, or an integrity error. */
  function Next(h: Heads, i: nat): Option<(Row, Heads)> {
    var (first, second) := (LaneParent(h.frontier0, h.tail0, 0), LaneParent(h.frontier1, h.tail1, 1));
    if first.None? || second.None? then None
    else
      var parents := first.value + second.value;
      if RoleAt(i) == 0 then
        var row := Row(0, h.frontier0, 2 * h.frontier0, i, h.tail0, parents);
        Some((row, h.(frontier0 := h.frontier0 + 1, tail0 := Some(row))))
      else
        var row := Row(1, h.frontier1, 2 * h.frontier1 + 1, i, h.tail1, parents);
        Some((row, h.(frontier1 := h.frontier1 + 1, tail1 := Some(row))))
  }

  /** The heads after `n` rows: a function of the index alone. */
  function HeadsAfter(n: nat): (h: Heads)
    ensures h.tail0.Some? && h.tail1.Some?
  {
    if n == 0 then ORACLE else Next(HeadsAfter(n - 1), n - 1).value.1
  }

  function RowAt(i: nat): Row {
    Next(HeadsAfter(i), i).value.0
  }

  lemma FirstHeads()
    ensures HeadsAfter(0).frontier0 == 1 && HeadsAfter(0).frontier1 == 1
    ensures HeadsAfter(0).tail0 == Some(Genesis(0)) && HeadsAfter(0).tail1 == Some(Genesis(1))
  {
  }

  /** One generated row. */
  lemma RowStep(i: nat)
    ensures Next(HeadsAfter(i), i) == Some((RowAt(i), HeadsAfter(i + 1)))
    ensures RowAt(i).stamp == i && RowAt(i).role == RoleAt(i) && RoleAt(i) <= 1
    ensures var h := HeadsAfter(i);
            && RowAt(i).parents == LaneParent(h.frontier0, h.tail0, 0).value + LaneParent(h.frontier1, h.tail1, 1).value
            && RowAt(i).ordinal == (if RoleAt(i) == 0 then h.frontier0 else h.frontier1)
            && RowAt(i).previous == (if RoleAt(i) == 0 then h.tail0 else h.tail1)
            && RowAt(i).sequence == 2 * RowAt(i).ordinal + RoleAt(i)
            && HeadsAfter(i + 1) == (if RoleAt(i) == 0 then h.(frontier0 := h.frontier0 + 1, tail0 := Some(RowAt(i)))
                                     else h.(frontier1 := h.frontier1 + 1, tail1 := Some(RowAt(i))))
  {
  }

  // ----- frontiers -----

  function Ceiling(n: nat): nat {
    (n + (LANE_PERIOD - 1)) / LANE_PERIOD
  }

  lemma CeilingStep(n: nat)
    ensures Ceiling(n + 1) == Ceiling(n) + 1 - RoleAt(n) && Ceiling(n) <= n
    ensures Ceiling(n + LANE_PERIOD) == Ceiling(n) + 1
    ensures Ceiling(0) == 0
  {
  }

  /** After `n` rows the frontiers are `1 + ceil(n / 16)` and `1 + n - ceil(n / 16)`. */
  lemma {:induction false} Frontiers(n: nat)
    ensures HeadsAfter(n).frontier0 == 1 + Ceiling(n)
    ensures HeadsAfter(n).frontier1 == 1 + n - Ceiling(n)
    ensures Count(HeadsAfter(n)) == n
  {
    hide HeadsAfter, Next, RowAt, Ceiling, LaneParent, RoleAt;
    FirstHeads();
    CeilingStep(n);
    if n > 0 {
      RowStep(n - 1);
      CeilingStep(n - 1);
      Frontiers(n - 1);
    }
  }

  /** Any sixteen further rows add exactly one row to the first lane and fifteen to the second. */
  lemma SixteenMore(n: nat)
    ensures HeadsAfter(n + LANE_PERIOD).frontier0 == HeadsAfter(n).frontier0 + 1
    ensures HeadsAfter(n + LANE_PERIOD).frontier1 == HeadsAfter(n).frontier1 + (LANE_PERIOD - 1)
  {
    CeilingStep(n);
    hide HeadsAfter, Ceiling;
    Frontiers(n);
    Frontiers(n + LANE_PERIOD);
  }

  // ----- parents -----

  /** The index of the last row before `n` in a lane, if it has one. */
  function LastOf(role: nat, n: nat): Option<nat> {
    if n == 0 then None else if RoleAt(n - 1) == role then Some(n - 1) else LastOf(role, n - 1)
  }

  lemma {:induction false} Tails(n: nat)
    ensures HeadsAfter(n).frontier0 > 1 <==> LastOf(0, n).Some?
    ensures HeadsAfter(n).frontier1 > 1 <==> LastOf(1, n).Some?
    ensures LastOf(0, n).Some? ==> HeadsAfter(n).tail0 == Some(RowAt(LastOf(0, n).value)) && LastOf(0, n).value < n
    ensures LastOf(1, n).Some? ==> HeadsAfter(n).tail1 == Some(RowAt(LastOf(1, n).value)) && LastOf(1, n).value < n
    ensures LastOf(0, n).None? ==> HeadsAfter(n).tail0 == Some(Genesis(0))
    ensures LastOf(1, n).None? ==> HeadsAfter(n).tail1 == Some(Genesis(1))
    ensures HeadsAfter(n).frontier0 >= 1 && HeadsAfter(n).frontier1 >= 1
  {
    hide HeadsAfter, Next, RowAt, LaneParent, RoleAt;
    FirstHeads();
    if n > 0 {
      RowStep(n - 1);
      Tails(n - 1);
    }
  }

  ghost predicate Earlier(b: Row, i: nat) {
    exists j :: 0 <= j < i && b == RowAt(j)
  }

  ghost predicate HasParent(a: Row, b: Row) {
    exists p :: p in a.parents && p.event == b
  }

  /** Every parent is an earlier row, and the row just before is always one of them. */
  lemma ParentsAreEarlier(i: nat)
    ensures forall p :: p in RowAt(i).parents ==> Earlier(p.event, i)
    ensures i > 0 ==> HasParent(RowAt(i), RowAt(i - 1))
  {
    Tails(i);
    RowStep(i);
    var h := HeadsAfter(i);
    var (first, second) := (LaneParent(h.frontier0, h.tail0, 0).value, LaneParent(h.frontier1, h.tail1, 1).value);
    assert forall p :: p in RowAt(i).parents ==> p in first || p in second;
    if i > 0 {
      assert LastOf(RoleAt(i - 1), i) == Some(i - 1);
      hide HeadsAfter, Next, RowAt;
      if RoleAt(i - 1) == 0 {
        assert first[0] in RowAt(i).parents;
      } else {
        assert second[0] in RowAt(i).parents;
      }
    }
  }

  /** `b` lies in the parent closure of `a`. */
  ghost predicate Reaches(a: Row, b: Row)
    decreases a
  {
    exists p :: p in a.parents && (p.event == b || Reaches(p.event, b))
  }

  lemma ReachesThrough(a: Row, parent: Row, b: Row)
    requires HasParent(a, parent) && (parent == b || Reaches(parent, b))
    ensures Reaches(a, b)
  {
  }

  lemma ReachesBy(a: Row, b: Row) returns (parent: Row)
    requires Reaches(a, b)
    ensures HasParent(a, parent) && (parent == b || Reaches(parent, b))
  {
    var p :| p in a.parents && (p.event == b || Reaches(p.event, b));
    parent := p.event;
  }

  /** Every row's parent closure is exactly all earlier rows. */
  lemma {:induction false} ParentClosure(i: nat, b: Row)
    ensures Reaches(RowAt(i), b) <==> Earlier(b, i)
    decreases i
  {
    ParentsAreEarlier(i);
    hide Reaches, RowAt;
    if Reaches(RowAt(i), b) {
      var parent := ReachesBy(RowAt(i), b);
      var j :| 0 <= j < i && parent == RowAt(j);
      ParentClosure(j, b);
    }
    if j :| 0 <= j < i && b == RowAt(j) {
      ParentClosure(i - 1, b);
      ReachesThrough(RowAt(i), RowAt(i - 1), b);
    }
  }

  /** An order of the first `n` rows that puts every row after its parents. */
  ghost predicate CausalOrder(order: seq<nat>, n: nat) {
    && |order| == n && Distinct(order) && (forall i :: i in order ==> i < n)
    && forall k, j :: 0 <= k < n && 0 <= j < n && HasParent(RowAt(order[k]), RowAt(j)) ==> j in order[..k]
  }

  /** Stream order is the only causal order. */
  lemma {:induction false} OnlyOneOrder(order: seq<nat>, n: nat, k: nat)
    requires CausalOrder(order, n) && k < n
    ensures order[k] == k
    decreases k
  {
    var i := order[k];
    assert i in order;
    if i > 0 {
      ParentsAreEarlier(i);
      hide RowAt;
      assert i - 1 in order[..k];
      var m :| 0 <= m < k && order[m] == i - 1;
      OnlyOneOrder(order, n, m);
      if i < k {
        OnlyOneOrder(order, n, i);
      }
    } else if k > 0 {
      OnlyOneOrder(order, n, 0);
    }
  }

  /** A row names the last row of its own lane, or that lane's genesis, and numbers itself after it. */
  lemma LaneChain(i: nat)
    ensures RowAt(i).ordinal == 1 + (if RoleAt(i) == 0 then Ceiling(i) else i - Ceiling(i))
    ensures RowAt(i).sequence == 2 * RowAt(i).ordinal + RoleAt(i)
    ensures var last := LastOf(RoleAt(i), i);
            RowAt(i).previous == Some(if last.Some? then RowAt(last.value) else Genesis(RoleAt(i)))
  {
    hide HeadsAfter, RowAt, Next, LaneParent, RoleAt, Ceiling, LastOf;
    RowStep(i);
    Tails(i);
    Frontiers(i);
  }

  lemma {:induction false} FrontiersRise(i: nat, j: nat)
    requires i <= j
    ensures HeadsAfter(i).frontier0 <= HeadsAfter(j).frontier0 && HeadsAfter(i).frontier1 <= HeadsAfter(j).frontier1
    decreases j - i
  {
    hide HeadsAfter, RowAt, Next, LaneParent, RoleAt;
    if i < j {
      RowStep(j - 1);
      FrontiersRise(i, j - 1);
    }
  }

  /** No two rows of the stream share a sequence number. */
  lemma SequencesDistinct(i: nat, j: nat)
    requires i < j
    ensures RowAt(i).sequence != RowAt(j).sequence
  {
    hide HeadsAfter, RowAt, Next, RoleAt, LaneParent;
    RowStep(i);
    RowStep(j);
    FrontiersRise(i + 1, j);
  }

  // ----- the paged validator -----

  /** The generated stream on `from .. from + n`. */
  function Stream(from: nat, n: nat): (r: seq<Item>)
    ensures |r| == n
  {
    seq(n, k requires 0 <= k < n => ItemOf(RowAt(from + k)))
  }

  function Joined(pages: seq<seq<Item>>): seq<Item> {
    if pages == [] then [] else Joined(pages[..|pages| - 1]) + pages[|pages| - 1]
  }

  datatype Checkpoint = Checkpoint(expected: Heads, index: nat)

  /** The expectation a validator carries: two frontiers and two tails, updated in place. */
  class Expectation {
    const frontiers: array<nat>
    const tails: array<Option<Row>>

    ghost predicate Valid()
      reads this, frontiers, tails
    {
      frontiers.Length == 2 && tails.Length == 2
    }

    function Value(): Heads
      requires Valid()
      reads this, frontiers, tails
    {
      Heads(frontiers[0], frontiers[1], tails[0], tails[1])
    }

    constructor (h: Heads)
      ensures Valid() && Value() == h && fresh(frontiers) && fresh(tails)
    {
      frontiers := new nat[2](r => if r == 0 then h.frontier0 else h.frontier1);
      tails := new Option<Row>[2](r => if r == 0 then h.tail0 else h.tail1);
    }

    /** `next_row`. */
    method NextRow(i: nat) returns (row: Option<Row>)
      requires Valid()
      modifies frontiers, tails
      ensures Valid()
      ensures match Next(old(Value()), i)
              case None => row == None && Value() == old(Value())
              case Some(next) => row == Some(next.0) && Value() == next.1
    {
      var role := if i % LANE_PERIOD == 0 then 0 else 1;
      var parents: seq<Parent> := [];
      for r := 0 to 2
        invariant forall k :: 0 <= k < r ==> LaneParent(frontiers[k], tails[k], k).Some?
        invariant r == 1 ==> Some(parents) == LaneParent(frontiers[0], tails[0], 0)
        invariant r == 2 ==> parents == LaneParent(frontiers[0], tails[0], 0).value
                             + LaneParent(frontiers[1], tails[1], 1).value
        invariant r == 0 ==> parents == []
        invariant Valid() && Value() == old(Value())
      {
        if frontiers[r] > 1 {
          if tails[r].None? {
            return None;
          }
          var parent := [Parent(tails[r].value, r, frontiers[r] - 1)];
          assert r == 0 ==> parents + parent == parent;
          parents := parents + parent;
        }
      }
      var made := Row(role, frontiers[role], frontiers[role] * 2 + role, i, tails[role], parents);
      tails[role] := Some(made);
      frontiers[role] := frontiers[role] + 1;
      row := Some(made);
    }

    /** `validate_items`: accepts exactly the generated stream, item for item. */
    method ValidateItems(items: seq<Item>, index: nat) returns (ok: bool, next: nat)
      requires Valid() && Value() == HeadsAfter(index)
      modifies frontiers, tails
      ensures Valid()
      ensures ok <==> items == Stream(index, |items|)
      ensures ok ==> next == index + |items| && Value() == HeadsAfter(next)
    {
      hide Next, HeadsAfter, RowAt, LaneParent, RoleAt;
      next := index;
      for k := 0 to |items|
        invariant Valid() && next == index + k && Value() == HeadsAfter(next)
        invariant forall m :: 0 <= m < k ==> items[m] == ItemOf(RowAt(index + m))
      {
        RowStep(next);
        var row := NextRow(next);
        if row.None? || items[k] != ItemOf(row.value) {
          assert items[k] != Stream(index, |items|)[k];
          return false, next;
        }
        next := next + 1;
      }
      ok := true;
    }

    /** The range loop: pages validated one after another, saving checkpoints at page boundaries. */
    method ValidatePages(pages: seq<seq<Item>>, index: nat, target: nat)
      returns (ok: bool, seen: nat, checkpoints: seq<Checkpoint>)
      requires Valid() && Value() == HeadsAfter(index)
      modifies frontiers, tails
      ensures Valid()
      ensures ok <==> Joined(pages) == Stream(index, |Joined(pages)|)
      ensures ok ==> seen == index + |Joined(pages)| && Value() == HeadsAfter(seen)
      ensures forall c :: c in checkpoints ==> c.expected == HeadsAfter(c.index) && index <= c.index
    {
      hide HeadsAfter, RowAt, Stream;
      NothingStreamed(index);
      seen, checkpoints := index, [];
      for n := 0 to |pages|
        invariant Valid() && seen == index + |Joined(pages[..n])| && Value() == HeadsAfter(seen)
        invariant Joined(pages[..n]) == Stream(index, |Joined(pages[..n])|)
        invariant forall c :: c in checkpoints ==> c.expected == HeadsAfter(c.index) && index <= c.index
      {
        assert pages[..n + 1][..n] == pages[..n];
        ghost var start := seen;
        StreamSplit(index, Joined(pages[..n]), pages[n]);
        ok, seen := ValidateItems(pages[n], seen);
        if !ok {
          PrefixRefutes(pages, n + 1, index);
          return false, seen, checkpoints;
        }
        if |checkpoints| == 0 || (|checkpoints| == 1 && seen >= target / 2)
            || (|checkpoints| == 2 && seen + 32 >= target) {
          checkpoints := checkpoints + [Checkpoint(Value(), seen)];
        }
      }
      assert pages[..|pages|] == pages;
      ok := true;
    }
  }

  /** Resuming from a saved checkpoint validates exactly the stream from its index. */
  method Resume(checkpoint: Checkpoint, pages: seq<seq<Item>>) returns (ok: bool, index: nat)
    requires checkpoint.expected == HeadsAfter(checkpoint.index)
    ensures ok <==> Joined(pages) == Stream(checkpoint.index, |Joined(pages)|)
    ensures ok ==> index == checkpoint.index + |Joined(pages)|
  {
    var expected := new Expectation(checkpoint.expected);
    var checkpoints;
    ok, index, checkpoints := expected.ValidatePages(pages, checkpoint.index, 0);
  }

  lemma NothingStreamed(from: nat)
    ensures Stream(from, 0) == []
  {
  }

  /** A concatenation is the stream exactly when its parts are, each from where the one before ended. */
  lemma StreamSplit(from: nat, a: seq<Item>, b: seq<Item>)
    ensures a + b == Stream(from, |a| + |b|) <==> a == Stream(from, |a|) && b == Stream(from + |a|, |b|)
  {
    hide RowAt, ItemOf;
    assert Stream(from, |a| + |b|)[..|a|] == Stream(from, |a|);
    assert Stream(from, |a| + |b|)[|a|..] == Stream(from + |a|, |b|);
    assert (a + b)[..|a|] == a && (a + b)[|a|..] == b;
    assert Stream(from, |a| + |b|) == Stream(from, |a|) + Stream(from + |a|, |b|);
  }

  /** Pages that fail early fail as a whole. */
  lemma {:induction false} PrefixRefutes(pages: seq<seq<Item>>, n: nat, from: nat)
    requires n <= |pages| && Joined(pages[..n]) != Stream(from, |Joined(pages[..n])|)
    ensures Joined(pages) != Stream(from, |Joined(pages)|)
    decreases |pages|
  {
    if n == |pages| {
      assert pages[..n] == pages;
    } else {
      var last := |pages| - 1;
      assert pages[..last][..n] == pages[..n];
      PrefixRefutes(pages[..last], n, from);
      StreamSplit(from, Joined(pages[..last]), pages[last]);
    }
  }
}
