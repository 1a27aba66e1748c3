/** The reading order of the identity rows (SmartCardHandler::applyFieldOrder): within each group, rows are
    stably sorted by the rank the group's declared order gives their field, in the slots the group already has. */
module FieldOrder {
  import opened Wrappers

  /** A row of the identity panel. `heading` is absent until the heading pass has run. */
  datatype Row = Row(groupKey: string, fieldKey: string, caption: string, value: string, heading: Option<string>)

  /** `order.indexOf(fieldKey)`, with the fields an order does not name after all it does. */
  function Rank(order: seq<string>, fieldKey: string): (r: nat)
    ensures r <= |order|
  {
    if order == [] || order[0] == fieldKey then 0 else 1 + Rank(order[1..], fieldKey)
  }

  /** The rows of one group, in their order. */
  function Group(rows: seq<Row>, key: string): seq<Row> {
    if rows == [] then []
    else if rows[0].groupKey == key then [rows[0]] + Group(rows[1..], key)
    else Group(rows[1..], key)
  }

  /** The rows of one rank, in their order. */
  function Ranked(rows: seq<Row>, order: seq<string>, rank: nat): seq<Row> {
    if rows == [] then []
    else if Rank(order, rows[0].fieldKey) == rank then [rows[0]] + Ranked(rows[1..], order, rank)
    else Ranked(rows[1..], order, rank)
  }

  ghost predicate Sorted(rows: seq<Row>, order: seq<string>) {
    forall i, j :: 0 <= i < j < |rows| ==> Rank(order, rows[i].fieldKey) <= Rank(order, rows[j].fieldKey)
  }

  /** What `std::stable_sort` promises: ranks ascend, and the rows of each rank keep their order. */
  ghost predicate StablySorted(before: seq<Row>, after: seq<Row>, order: seq<string>) {
    Sorted(after, order) && forall r :: Ranked(after, order, r) == Ranked(before, order, r)
  }

  /** What the pass promises: every slot keeps its group, and every group is stably sorted. */
  ghost predicate Ordered(before: seq<Row>, after: seq<Row>, orderOf: string -> seq<string>) {
    && |after| == |before|
    && (forall i :: 0 <= i < |before| ==> after[i].groupKey == before[i].groupKey)
    && forall key :: StablySorted(Group(before, key), Group(after, key), orderOf(key))
  }

  // ---- The library's sort ----

  /** `x` before the first row that does not rank below it. */
  function Insert(x: Row, rows: seq<Row>, order: seq<string>): seq<Row> {
    if rows != [] && Rank(order, rows[0].fieldKey) < Rank(order, x.fieldKey)
    then [rows[0]] + Insert(x, rows[1..], order)
    else [x] + rows
  }

  function StableSort(rows: seq<Row>, order: seq<string>): seq<Row> {
    if rows == [] then [] else Insert(rows[0], StableSort(rows[1..], order), order)
  }

  lemma {:induction false} InsertSorted(x: Row, rows: seq<Row>, order: seq<string>)
    requires Sorted(rows, order)
    ensures Sorted(Insert(x, rows, order), order) && |Insert(x, rows, order)| == |rows| + 1
    ensures forall y <- Insert(x, rows, order) :: y == x || y in rows
  {
    if rows != [] && Rank(order, rows[0].fieldKey) < Rank(order, x.fieldKey) {
      var rest := Insert(x, rows[1..], order);
      InsertSorted(x, rows[1..], order);
      forall j | 0 <= j < |rest|
        ensures Rank(order, rows[0].fieldKey) <= Rank(order, rest[j].fieldKey)
      {
        assert rest[j] == x || rest[j] in rows[1..];
      }
    }
  }

  lemma {:induction false} InsertRanked(x: Row, rows: seq<Row>, order: seq<string>, r: nat)
    ensures Ranked(Insert(x, rows, order), order, r) == Ranked([x] + rows, order, r)
  {
    assert ([x] + rows)[1..] == rows;
    if rows != [] && Rank(order, rows[0].fieldKey) < Rank(order, x.fieldKey) {
      InsertRanked(x, rows[1..], order, r);
      assert ([x] + rows[1..])[1..] == rows[1..];
      assert Insert(x, rows, order)[1..] == Insert(x, rows[1..], order);
    }
  }

  lemma {:induction false} StableSortSorts(rows: seq<Row>, order: seq<string>)
    ensures StablySorted(rows, StableSort(rows, order), order)
    ensures |StableSort(rows, order)| == |rows| && forall y <- StableSort(rows, order) :: y in rows
  {
    if rows != [] {
      var x, rest := rows[0], StableSort(rows[1..], order);
      StableSortSorts(rows[1..], order);
      InsertSorted(x, rest, order);
      forall r: nat
        ensures Ranked(StableSort(rows, order), order, r) == Ranked(rows, order, r)
      {
        InsertRanked(x, rest, order, r);
        assert ([x] + rest)[1..] == rest;
      }
    }
  }

  // ---- The order is unique ----

  /** The rows of ranks below `n`, rank by rank. */
  function Buckets(rows: seq<Row>, order: seq<string>, n: nat): seq<Row> {
    if n == 0 then [] else Buckets(rows, order, n - 1) + Ranked(rows, order, n - 1)
  }

  lemma {:induction false} RankedAppend(rows: seq<Row>, x: Row, order: seq<string>, r: nat)
    ensures Ranked(rows + [x], order, r) ==
              if Rank(order, x.fieldKey) == r then Ranked(rows, order, r) + [x] else Ranked(rows, order, r)
  {
    var all := rows + [x];
    if rows == [] {
      assert all == [x] && all[1..] == [];
    } else {
      var rest := rows[1..];
      assert all[0] == rows[0] && all[1..] == rest + [x];
      RankedAppend(rest, x, order, r);
      assert [rows[0]] + (Ranked(rest, order, r) + [x]) == [rows[0]] + Ranked(rest, order, r) + [x];
    }
  }

  lemma {:induction false} BucketsAppend(rows: seq<Row>, x: Row, order: seq<string>, n: nat)
    requires n <= Rank(order, x.fieldKey)
    ensures Buckets(rows + [x], order, n) == Buckets(rows, order, n)
  {
    if n > 0 {
      RankedAppend(rows, x, order, n - 1);
      BucketsAppend(rows, x, order, n - 1);
    }
  }

  ghost predicate RanksBelow(rows: seq<Row>, order: seq<string>, n: nat) {
    forall x <- rows :: Rank(order, x.fieldKey) < n
  }

  lemma InitRanksBelow(init: seq<Row>, last: Row, order: seq<string>, n: nat)
    requires RanksBelow(init + [last], order, n)
    ensures RanksBelow(init, order, n) && Rank(order, last.fieldKey) < n
  {
    assert last in init + [last];
    assert forall x <- init :: x in init + [last];
  }

  lemma LastRanksHighest(init: seq<Row>, last: Row, order: seq<string>)
    requires Sorted(init + [last], order)
    ensures RanksBelow(init + [last], order, Rank(order, last.fieldKey) + 1)
  {
    var rows := init + [last];
    forall x <- rows
      ensures Rank(order, x.fieldKey) <= Rank(order, last.fieldKey)
    {
      var i :| 0 <= i < |rows| && rows[i] == x;
      assert rows[|init|] == last;
    }
  }

  lemma RanksBelowMore(rows: seq<Row>, order: seq<string>, n: nat, more: nat)
    requires RanksBelow(rows, order, n) && n <= more
    ensures RanksBelow(rows, order, more)
  {
  }

  lemma BucketsExtend(init: seq<Row>, last: Row, order: seq<string>, n: nat)
    requires n > 0 && Rank(order, last.fieldKey) == n - 1
    ensures Buckets(init + [last], order, n) == Buckets(init, order, n) + [last]
  {
    RankedAppend(init, last, order, n - 1);
    BucketsAppend(init, last, order, n - 1);
  }

  lemma SortedInit(init: seq<Row>, last: Row, order: seq<string>)
    requires Sorted(init + [last], order)
    ensures Sorted(init, order)
  {
    forall i, j | 0 <= i < j < |init|
      ensures Rank(order, init[i].fieldKey) <= Rank(order, init[j].fieldKey)
    {
      assert (init + [last])[i] == init[i] && (init + [last])[j] == init[j];
    }
  }

  lemma EmptyBucket(rows: seq<Row>, order: seq<string>, n: nat)
    requires n > 0 && RanksBelow(rows, order, n - 1)
    ensures Buckets(rows, order, n) == Buckets(rows, order, n - 1)
  {
    NoneRanked(rows, order, n - 1);
    assert Buckets(rows, order, n - 1) + [] == Buckets(rows, order, n - 1);
  }

  /** A sorted list is its ranks in turn. */
  lemma {:induction false} SortedIsBuckets(rows: seq<Row>, order: seq<string>, n: nat)
    requires Sorted(rows, order) && RanksBelow(rows, order, n)
    ensures rows == Buckets(rows, order, n)
    decreases |rows|, n
  {
    if rows == [] {
      NoBuckets(order, n);
    } else {
      var init, last := rows[..|rows| - 1], rows[|rows| - 1];
      assert rows == init + [last];
      InitRanksBelow(init, last, order, n);
      if Rank(order, last.fieldKey) == n - 1 {
        SortedInit(init, last, order);
        SortedIsBuckets(init, order, n);
        BucketsExtend(init, last, order, n);
      } else {
        LastRanksHighest(init, last, order);
        RanksBelowMore(rows, order, Rank(order, last.fieldKey) + 1, n - 1);
        SortedIsBuckets(rows, order, n - 1);
        EmptyBucket(rows, order, n);
      }
    }
  }

  lemma {:induction false} NoBuckets(order: seq<string>, n: nat)
    ensures Buckets([], order, n) == []
  {
    if n > 0 {
      NoBuckets(order, n - 1);
    }
  }

  lemma {:induction false} NoneRanked(rows: seq<Row>, order: seq<string>, r: nat)
    requires forall x <- rows :: Rank(order, x.fieldKey) != r
    ensures Ranked(rows, order, r) == []
  {
    if rows != [] {
      NoneRanked(rows[1..], order, r);
    }
  }

  lemma {:induction false} SameBuckets(a: seq<Row>, b: seq<Row>, order: seq<string>, n: nat)
    requires forall r :: Ranked(a, order, r) == Ranked(b, order, r)
    ensures Buckets(a, order, n) == Buckets(b, order, n)
  {
    if n > 0 {
      SameBuckets(a, b, order, n - 1);
    }
  }

  /** There is one stable sort. */
  lemma StableSortUnique(before: seq<Row>, a: seq<Row>, b: seq<Row>, order: seq<string>)
    requires StablySorted(before, a, order) && StablySorted(before, b, order)
    ensures a == b
  {
    SortedIsBuckets(a, order, |order| + 1);
    SortedIsBuckets(b, order, |order| + 1);
    SameBuckets(a, b, order, |order| + 1);
  }

  /** The rows at the slots are settled by their groups and by what each group reads. */
  lemma {:induction false} GroupsDetermine(a: seq<Row>, b: seq<Row>)
    requires |a| == |b| && (forall i :: 0 <= i < |a| ==> a[i].groupKey == b[i].groupKey)
    requires forall key :: Group(a, key) == Group(b, key)
    ensures a == b
  {
    if a != [] {
      assert Group(a, a[0].groupKey)[0] == a[0] && Group(b, a[0].groupKey)[0] == b[0];
      forall key
        ensures Group(a[1..], key) == Group(b[1..], key)
      {
        if key == a[0].groupKey {
          assert Group(a[1..], key) == Group(a, key)[1..] && Group(b[1..], key) == Group(b, key)[1..];
        } else {
          assert Group(a, key) == Group(a[1..], key) && Group(b, key) == Group(b[1..], key);
        }
      }
      GroupsDetermine(a[1..], b[1..]);
      assert a == [a[0]] + a[1..] && b == [b[0]] + b[1..];
    }
  }

  /** What the pass promises settles its result, so it cannot depend on the order the groups are visited in. */
  lemma OrderedUnique(before: seq<Row>, a: seq<Row>, b: seq<Row>, orderOf: string -> seq<string>)
    requires Ordered(before, a, orderOf) && Ordered(before, b, orderOf)
    ensures a == b
  {
    forall key
      ensures Group(a, key) == Group(b, key)
    {
      StableSortUnique(Group(before, key), Group(a, key), Group(b, key), orderOf(key));
    }
    GroupsDetermine(a, b);
  }

  // ---- No row is lost or doubled ----

  lemma {:induction false} GroupCount(rows: seq<Row>, x: Row)
    ensures multiset(Group(rows, x.groupKey))[x] == multiset(rows)[x]
  {
    if rows != [] {
      GroupCount(rows[1..], x);
      assert rows == [rows[0]] + rows[1..];
    }
  }

  lemma {:induction false} RankedCount(rows: seq<Row>, order: seq<string>, x: Row)
    ensures multiset(Ranked(rows, order, Rank(order, x.fieldKey)))[x] == multiset(rows)[x]
  {
    if rows != [] {
      RankedCount(rows[1..], order, x);
      assert rows == [rows[0]] + rows[1..];
    }
  }

  lemma OrderedPermutes(before: seq<Row>, after: seq<Row>, orderOf: string -> seq<string>)
    requires Ordered(before, after, orderOf)
    ensures multiset(after) == multiset(before)
  {
    forall x: Row
      ensures multiset(after)[x] == multiset(before)[x]
    {
      var key := x.groupKey;
      GroupCount(before, x);
      GroupCount(after, x);
      RankedCount(Group(before, key), orderOf(key), x);
      RankedCount(Group(after, key), orderOf(key), x);
    }
  }

  // ---- What the order means ----

  /** `at` is the first place of the field in the declared order. */
  ghost predicate DeclaredAt(order: seq<string>, fieldKey: string, at: nat) {
    at < |order| && order[at] == fieldKey && fieldKey !in order[..at]
  }

  /** A declared field ranks by its first place, an undeclared one behind them all. */
  lemma {:induction false} RankIs(order: seq<string>, fieldKey: string)
    ensures fieldKey in order ==> DeclaredAt(order, fieldKey, Rank(order, fieldKey))
    ensures fieldKey !in order ==> Rank(order, fieldKey) == |order|
  {
    if order != [] && order[0] != fieldKey {
      var rest := order[1..];
      assert fieldKey in order <==> fieldKey in rest;
      RankIs(rest, fieldKey);
      if fieldKey in order {
        var at := Rank(rest, fieldKey);
        assert order[..at + 1] == [order[0]] + rest[..at];
      }
    }
  }

  lemma DeclaredOnce(order: seq<string>, fieldKey: string, a: nat, b: nat)
    requires DeclaredAt(order, fieldKey, a) && DeclaredAt(order, fieldKey, b)
    ensures a == b
  {
  }

  /** The rows of one field, in their order. */
  function OfField(rows: seq<Row>, fieldKey: string): seq<Row> {
    if rows == [] then []
    else if rows[0].fieldKey == fieldKey then [rows[0]] + OfField(rows[1..], fieldKey)
    else OfField(rows[1..], fieldKey)
  }

  /** The rows whose field the order does not declare, in their order. */
  function Undeclared(rows: seq<Row>, order: seq<string>): seq<Row> {
    if rows == [] then []
    else if rows[0].fieldKey !in order then [rows[0]] + Undeclared(rows[1..], order)
    else Undeclared(rows[1..], order)
  }

  lemma {:induction false} UndeclaredRanked(rows: seq<Row>, order: seq<string>)
    ensures Undeclared(rows, order) == Ranked(rows, order, |order|)
  {
    if rows != [] {
      RankIs(order, rows[0].fieldKey);
      UndeclaredRanked(rows[1..], order);
    }
  }

  lemma {:induction false} FieldRanked(rows: seq<Row>, order: seq<string>, fieldKey: string)
    requires fieldKey in order
    ensures OfField(rows, fieldKey) == Ranked(rows, order, Rank(order, fieldKey))
  {
    if rows != [] {
      RankIs(order, fieldKey);
      RankIs(order, rows[0].fieldKey);
      FieldRanked(rows[1..], order, fieldKey);
    }
  }

  /** Within a group: the rows of declared fields come first, by the fields' places in the declared order; the rows
      of undeclared fields follow, in the order they were delivered; and so are the rows of any one declared field. */
  lemma OrderedMeans(before: seq<Row>, after: seq<Row>, orderOf: string -> seq<string>, key: string)
    requires Ordered(before, after, orderOf)
    ensures var g, order := Group(after, key), orderOf(key);
            && (forall i, j :: 0 <= i < j < |g| && g[j].fieldKey in order ==> g[i].fieldKey in order)
            && (forall i, j, a, b ::
                  0 <= i < j < |g| && DeclaredAt(order, g[i].fieldKey, a) && DeclaredAt(order, g[j].fieldKey, b)
                  ==> a <= b)
            && Undeclared(g, order) == Undeclared(Group(before, key), order)
            && forall field <- order :: OfField(g, field) == OfField(Group(before, key), field)
  {
    var was, g, order := Group(before, key), Group(after, key), orderOf(key);
    assert StablySorted(was, g, order);
    UndeclaredRanked(g, order);
    UndeclaredRanked(was, order);
    forall field <- order
      ensures OfField(g, field) == OfField(was, field)
    {
      FieldRanked(g, order, field);
      FieldRanked(was, order, field);
    }
    forall i | 0 <= i < |g|
      ensures g[i].fieldKey in order ==> DeclaredAt(order, g[i].fieldKey, Rank(order, g[i].fieldKey))
      ensures g[i].fieldKey !in order ==> Rank(order, g[i].fieldKey) == |order|
    {
      RankIs(order, g[i].fieldKey);
    }
    forall i, j, a, b | 0 <= i < j < |g| && DeclaredAt(order, g[i].fieldKey, a) && DeclaredAt(order, g[j].fieldKey, b)
      ensures a <= b
    {
      DeclaredOnce(order, g[i].fieldKey, a, Rank(order, g[i].fieldKey));
      DeclaredOnce(order, g[j].fieldKey, b, Rank(order, g[j].fieldKey));
    }
  }

  // ---- The slots of a group ----

  /** The indices below `n` of one group's rows, ascending. */
  function Slots(rows: seq<Row>, key: string, n: nat): (s: seq<nat>)
    requires n <= |rows|
    ensures forall k :: 0 <= k < |s| ==> s[k] < n && rows[s[k]].groupKey == key
  {
    if n == 0 then []
    else if rows[n - 1].groupKey == key then Slots(rows, key, n - 1) + [n - 1]
    else Slots(rows, key, n - 1)
  }

  /** They are all of that group's indices, each once and ascending. */
  lemma {:induction false} SlotsAre(rows: seq<Row>, key: string, n: nat)
    requires n <= |rows|
    ensures var s := Slots(rows, key, n);
            && (forall k, l :: 0 <= k < l < |s| ==> s[k] < s[l])
            && (forall j: nat :: j in s <==> j < n && rows[j].groupKey == key)
  {
    if n > 0 {
      SlotsAre(rows, key, n - 1);
    }
  }

  function AllSlots(rows: seq<Row>, key: string): seq<nat> {
    Slots(rows, key, |rows|)
  }

  function Pick(rows: seq<Row>, slots: seq<nat>): (p: seq<Row>)
    requires forall k :: 0 <= k < |slots| ==> slots[k] < |rows|
    ensures |p| == |slots| && forall k :: 0 <= k < |slots| ==> p[k] == rows[slots[k]]
  {
    seq(|slots|, k requires 0 <= k < |slots| => rows[slots[k]])
  }

  lemma {:induction false} GroupAppend(rows: seq<Row>, x: Row, key: string)
    ensures Group(rows + [x], key) == if x.groupKey == key then Group(rows, key) + [x] else Group(rows, key)
  {
    var all := rows + [x];
    if rows == [] {
      assert all == [x] && all[1..] == [];
    } else {
      var rest := rows[1..];
      assert all[0] == rows[0] && all[1..] == rest + [x];
      GroupAppend(rest, x, key);
      assert [rows[0]] + (Group(rest, key) + [x]) == [rows[0]] + Group(rest, key) + [x];
    }
  }

  lemma {:induction false} GroupIsPickedBelow(rows: seq<Row>, key: string, n: nat)
    requires n <= |rows|
    ensures Group(rows[..n], key) == Pick(rows, Slots(rows, key, n))
  {
    if n > 0 {
      GroupIsPickedBelow(rows, key, n - 1);
      assert rows[..n] == rows[..n - 1] + [rows[n - 1]];
      GroupAppend(rows[..n - 1], rows[n - 1], key);
    }
  }

  lemma GroupIsPicked(rows: seq<Row>, key: string)
    ensures Group(rows, key) == Pick(rows, AllSlots(rows, key))
  {
    GroupIsPickedBelow(rows, key, |rows|);
    assert rows[..|rows|] == rows;
  }

  lemma {:induction false} SlotsByKey(a: seq<Row>, b: seq<Row>, key: string, n: nat)
    requires |a| == |b| && n <= |a| && forall j :: 0 <= j < |a| ==> a[j].groupKey == b[j].groupKey
    ensures Slots(a, key, n) == Slots(b, key, n)
  {
    if n > 0 {
      SlotsByKey(a, b, key, n - 1);
    }
  }

  // ---- Writing one group back into its slots ----

  /** `after` holds `rows` in the slots of `key` and is `before` everywhere else. */
  ghost predicate Written(before: seq<Row>, after: seq<Row>, key: string, rows: seq<Row>) {
    var slots := AllSlots(before, key);
    && |after| == |before| && |rows| == |slots|
    && (forall k :: 0 <= k < |slots| ==> after[slots[k]] == rows[k])
    && forall i: nat :: i < |before| && before[i].groupKey != key ==> after[i] == before[i]
  }

  lemma WrittenKeys(before: seq<Row>, after: seq<Row>, key: string, rows: seq<Row>)
    requires Written(before, after, key, rows) && forall x <- rows :: x.groupKey == key
    ensures forall i :: 0 <= i < |before| ==> after[i].groupKey == before[i].groupKey
  {
    var slots := AllSlots(before, key);
    SlotsAre(before, key, |before|);
    forall i | 0 <= i < |before|
      ensures after[i].groupKey == before[i].groupKey
    {
      if before[i].groupKey == key {
        var k :| 0 <= k < |slots| && slots[k] == i;
        assert rows[k] in rows;
      }
    }
  }

  /** Writing a group's slots writes that group, leaves every other alone, and moves no group key. */
  lemma WrittenGroups(before: seq<Row>, after: seq<Row>, key: string, rows: seq<Row>, other: string)
    requires Written(before, after, key, rows) && forall x <- rows :: x.groupKey == key
    ensures Group(after, other) == if other == key then rows else Group(before, other)
  {
    WrittenKeys(before, after, key, rows);
    SlotsByKey(before, after, other, |before|);
    GroupIsPicked(after, other);
    GroupIsPicked(before, other);
    if other == key {
      assert Pick(after, AllSlots(before, key)) == rows;
    } else {
      assert Pick(after, AllSlots(before, other)) == Pick(before, AllSlots(before, other));
    }
  }

  lemma {:induction false} GroupKeys(rows: seq<Row>, key: string)
    ensures forall x <- Group(rows, key) :: x.groupKey == key && x in rows
  {
    if rows != [] {
      GroupKeys(rows[1..], key);
    }
  }

  // ---- The pass ----

  function SlotsOf(m: map<string, seq<nat>>, key: string): seq<nat> {
    if key in m then m[key] else []
  }

  /** The map holds every group's slots among the first `n` rows. */
  ghost predicate Collected(m: map<string, seq<nat>>, rows: seq<Row>, n: nat)
    requires n <= |rows|
  {
    forall key :: SlotsOf(m, key) == Slots(rows, key, n)
  }

  lemma CollectedNext(m: map<string, seq<nat>>, rows: seq<Row>, n: nat)
    requires n < |rows| && Collected(m, rows, n)
    ensures Collected(m[rows[n].groupKey := SlotsOf(m, rows[n].groupKey) + [n]], rows, n + 1)
  {
    var after := m[rows[n].groupKey := SlotsOf(m, rows[n].groupKey) + [n]];
    forall key
      ensures SlotsOf(after, key) == Slots(rows, key, n + 1)
    {
      assert SlotsOf(m, key) == Slots(rows, key, n);
    }
  }

  /** The slots of every group, in one pass over the rows. */
  method CollectSlots(rows: seq<Row>) returns (m: map<string, seq<nat>>)
    ensures forall key :: SlotsOf(m, key) == AllSlots(rows, key)
  {
    m := map[];
    for i := 0 to |rows|
      invariant Collected(m, rows, i)
    {
      CollectedNext(m, rows, i);
      var key := rows[i].groupKey;
      m := m[key := SlotsOf(m, key) + [i]];
    }
  }

  /** Write `rows` back over the slots of one group. */
  method Scatter(details: array<Row>, slots: seq<nat>, ghost key: string, rows: seq<Row>)
    requires slots == AllSlots(details[..], key) && |rows| == |slots|
    modifies details
    ensures Written(old(details[..]), details[..], key, rows)
  {
    ghost var before := details[..];
    SlotsAre(before, key, |before|);
    for i := 0 to |slots|
      invariant forall k :: 0 <= k < i ==> details[slots[k]] == rows[k]
      invariant forall j: nat :: j < |before| && before[j].groupKey != key ==> details[j] == before[j]
    {
      assert before[slots[i]].groupKey == key;
      details[slots[i]] := rows[i];
    }
  }

  /** Sort one group's rows in the slots it occupies. */
  method SortGroup(details: array<Row>, slots: seq<nat>, ghost key: string, order: seq<string>)
    requires slots == AllSlots(details[..], key)
    modifies details
    ensures forall i :: 0 <= i < details.Length ==> details[i].groupKey == old(details[i].groupKey)
    ensures Group(details[..], key) == StableSort(Group(old(details[..]), key), order)
    ensures forall other :: other != key ==> Group(details[..], other) == Group(old(details[..]), other)
  {
    ghost var before := details[..];
    GroupIsPicked(before, key);
    GroupKeys(before, key);
    var rows := [];
    for i := 0 to |slots|
      invariant rows == Pick(before, slots)[..i]
    {
      rows := rows + [details[slots[i]]];
    }
    assert rows == Group(before, key);
    StableSortSorts(rows, order);
    var sorted := StableSort(rows, order);
    Scatter(details, slots, key, sorted);
    WrittenKeys(before, details[..], key, sorted);
    forall other
      ensures Group(details[..], other) == if other == key then sorted else Group(before, other)
    {
      WrittenGroups(before, details[..], key, sorted, other);
    }
  }

  lemma UnorderedStands(rows: seq<Row>)
    ensures StablySorted(rows, rows, [])
  {
  }

  lemma NoSlotsNoRows(rows: seq<Row>, key: string)
    requires AllSlots(rows, key) == []
    ensures Group(rows, key) == []
  {
    GroupIsPicked(rows, key);
  }

  /** The pass itself. The groups are visited in any order at all, as a hash visits them. */
  method ApplyFieldOrder(input: seq<Row>, orderOf: string -> seq<string>) returns (out: seq<Row>)
    ensures Ordered(input, out, orderOf)
  {
    var details := new Row[|input|](i requires 0 <= i < |input| => input[i]);
    assert details[..] == input;
    var slotsByGroup := CollectSlots(input);
    var todo := slotsByGroup.Keys;
    forall key | key !in todo
      ensures StablySorted(Group(input, key), Group(details[..], key), orderOf(key))
    {
      assert SlotsOf(slotsByGroup, key) == [];
      NoSlotsNoRows(input, key);
    }
    while todo != {}
      invariant todo <= slotsByGroup.Keys
      invariant details.Length == |input|
      invariant forall i :: 0 <= i < |input| ==> details[i].groupKey == input[i].groupKey
      invariant forall key <- todo :: Group(details[..], key) == Group(input, key)
      invariant forall key :: key !in todo ==> StablySorted(Group(input, key), Group(details[..], key), orderOf(key))
      decreases todo
    {
      var key :| key in todo;
      todo := todo - {key};
      var order := orderOf(key);
      if order == [] {
        UnorderedStands(Group(input, key));
        continue;
      }
      SlotsByKey(details[..], input, key, |input|);
      assert SlotsOf(slotsByGroup, key) == AllSlots(input, key);
      StableSortSorts(Group(input, key), order);
      SortGroup(details, slotsByGroup[key], key, order);
    }
    out := details[..];
  }
}
