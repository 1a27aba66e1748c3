/** The heading pass over the identity rows (SmartCardHandler::applyGroupHeadings): each group once, whole, in
    the order groups first appear, with its heading on its first row only. */
module GroupHeadings {
  import opened Wrappers
  import opened FieldOrder

  /** The groups of the rows, in the order they first appear. */
  function FirstKeys(rows: seq<Row>): seq<string> {
    if rows == [] then []
    else
      var keys := FirstKeys(rows[..|rows| - 1]);
      var key := rows[|rows| - 1].groupKey;
      if key in keys then keys else keys + [key]
  }

  function WithHeading(row: Row, heading: string): Row {
    row.(heading := Some(heading))
  }

  /** A group's rows with the heading on the first and none on the others. */
  function HeadGroup(rows: seq<Row>, heading: string): (r: seq<Row>)
    ensures |r| == |rows|
  {
    seq(|rows|, i requires 0 <= i < |rows| => WithHeading(rows[i], if i == 0 then heading else ""))
  }

  function Headed(rows: seq<Row>, keys: seq<string>, headingOf: string -> string): seq<Row> {
    if keys == [] then []
    else HeadGroup(Group(rows, keys[0]), headingOf(keys[0])) + Headed(rows, keys[1..], headingOf)
  }

  function AllHeaded(rows: seq<Row>, headingOf: string -> string): seq<Row> {
    Headed(rows, FirstKeys(rows), headingOf)
  }

  // ---- The pass ----

  function RowsOf(m: map<string, seq<Row>>, key: string): seq<Row> {
    if key in m then m[key] else []
  }

  lemma {:induction false} HeadedAppend(rows: seq<Row>, keys: seq<string>, key: string, headingOf: string -> string)
    ensures Headed(rows, keys + [key], headingOf) ==
              Headed(rows, keys, headingOf) + HeadGroup(Group(rows, key), headingOf(key))
  {
    if keys == [] {
      assert keys + [key] == [key];
      assert Headed(rows, [key], headingOf) == HeadGroup(Group(rows, key), headingOf(key)) + [];
    } else {
      assert (keys + [key])[1..] == keys[1..] + [key];
      HeadedAppend(rows, keys[1..], key, headingOf);
    }
  }

  lemma CollectOne(rows: seq<Row>, i: nat)
    requires i < |rows|
    ensures FirstKeys(rows[..i + 1]) ==
              if rows[i].groupKey in FirstKeys(rows[..i]) then FirstKeys(rows[..i])
              else FirstKeys(rows[..i]) + [rows[i].groupKey]
    ensures forall key :: Group(rows[..i + 1], key) ==
              if key == rows[i].groupKey then Group(rows[..i], key) + [rows[i]] else Group(rows[..i], key)
  {
    assert rows[..i + 1] == rows[..i] + [rows[i]];
    assert rows[..i + 1][..i] == rows[..i];
    forall key
      ensures Group(rows[..i + 1], key) ==
                if key == rows[i].groupKey then Group(rows[..i], key) + [rows[i]] else Group(rows[..i], key)
    {
      GroupAppend(rows[..i], rows[i], key);
    }
  }

  /** The rows of every group, and the groups in the order they appear. */
  method CollectGroups(details: seq<Row>) returns (groupOrder: seq<string>, rowsByGroup: map<string, seq<Row>>)
    ensures groupOrder == FirstKeys(details)
    ensures forall key :: RowsOf(rowsByGroup, key) == Group(details, key)
  {
    groupOrder := [];
    rowsByGroup := map[];
    for i := 0 to |details|
      invariant groupOrder == FirstKeys(details[..i])
      invariant forall key :: key in rowsByGroup <==> key in groupOrder
      invariant forall key :: RowsOf(rowsByGroup, key) == Group(details[..i], key)
    {
      var key := details[i].groupKey;
      CollectOne(details, i);
      if key !in rowsByGroup {
        groupOrder := groupOrder + [key];
      }
      ghost var before := rowsByGroup;
      rowsByGroup := rowsByGroup[key := RowsOf(rowsByGroup, key) + [details[i]]];
      forall other
        ensures RowsOf(rowsByGroup, other) == Group(details[..i + 1], other)
      {
        assert RowsOf(before, other) == Group(details[..i], other);
      }
    }
    assert details[..|details|] == details;
  }

  /** Print one group: its heading on the first row, an empty one on the others. */
  method PrintGroup(done: seq<Row>, rows: seq<Row>, heading: string) returns (out: seq<Row>)
    ensures out == done + HeadGroup(rows, heading)
  {
    out := done;
    var first := true;
    for j := 0 to |rows|
      invariant first == (j == 0)
      invariant out == done + HeadGroup(rows, heading)[..j]
    {
      out := out + [WithHeading(rows[j], if first then heading else "")];
      first := false;
    }
  }

  lemma HeadedStep(rows: seq<Row>, keys: seq<string>, i: nat, headingOf: string -> string)
    requires i < |keys|
    ensures Headed(rows, keys[..i + 1], headingOf) ==
              Headed(rows, keys[..i], headingOf) + HeadGroup(Group(rows, keys[i]), headingOf(keys[i]))
  {
    assert keys[..i + 1] == keys[..i] + [keys[i]];
    HeadedAppend(rows, keys[..i], keys[i], headingOf);
  }

  /** Collect the groups by identity, then print each once. */
  method ApplyGroupHeadings(details: seq<Row>, headingOf: string -> string) returns (out: seq<Row>)
    ensures out == AllHeaded(details, headingOf)
  {
    var groupOrder, rowsByGroup := CollectGroups(details);
    out := [];
    for i := 0 to |groupOrder|
      invariant out == Headed(details, groupOrder[..i], headingOf)
    {
      var key := groupOrder[i];
      HeadedStep(details, groupOrder, i, headingOf);
      var rows := RowsOf(rowsByGroup, key);
      assert rows == Group(details, key);
      out := PrintGroup(out, rows, headingOf(key));
    }
    assert groupOrder[..|groupOrder|] == groupOrder;
  }

  // ---- What the pass promises ----

  ghost predicate Distinct(keys: seq<string>) {
    forall i, j :: 0 <= i < j < |keys| ==> keys[i] != keys[j]
  }

  lemma {:induction false} FirstKeysAre(rows: seq<Row>)
    ensures Distinct(FirstKeys(rows))
    ensures forall key :: key in FirstKeys(rows) <==> Group(rows, key) != []
  {
    if rows != [] {
      var init, last := rows[..|rows| - 1], rows[|rows| - 1];
      assert rows == init + [last];
      FirstKeysAre(init);
      forall key
        ensures key in FirstKeys(rows) <==> Group(rows, key) != []
      {
        GroupAppend(init, last, key);
      }
    }
  }

  lemma {:induction false} FirstKeysFound(rows: seq<Row>, key: string)
    ensures key in FirstKeys(rows) <==> exists i :: 0 <= i < |rows| && rows[i].groupKey == key
  {
    if rows != [] {
      var init, last := rows[..|rows| - 1], rows[|rows| - 1];
      FirstKeysFound(init, key);
      if i :| 0 <= i < |init| && init[i].groupKey == key {
        assert rows[i].groupKey == key;
      }
    }
  }

  /** Of two groups, the one listed earlier has a row ahead of every row of the other. */
  lemma {:induction false} FirstKeysOrder(rows: seq<Row>, i: nat, j: nat, b: nat)
    requires i < j < |FirstKeys(rows)| && b < |rows| && rows[b].groupKey == FirstKeys(rows)[j]
    ensures exists a :: 0 <= a < b && rows[a].groupKey == FirstKeys(rows)[i]
  {
    var init := rows[..|rows| - 1];
    FirstKeysAre(rows);
    if j < |FirstKeys(init)| && b < |init| {
      FirstKeysOrder(init, i, j, b);
      var a :| 0 <= a < b && init[a].groupKey == FirstKeys(init)[i];
      assert rows[a].groupKey == FirstKeys(rows)[i];
    } else {
      FirstKeysFound(init, FirstKeys(rows)[i]);
      FirstKeysFound(init, FirstKeys(rows)[j]);
      assert FirstKeys(rows)[i] in FirstKeys(init);
      var a :| 0 <= a < |init| && init[a].groupKey == FirstKeys(rows)[i];
      assert rows[a].groupKey == FirstKeys(rows)[i];
    }
  }

  /** The rows of one group stand together: a group that has appeared goes on only from its own last row. */
  ghost predicate Contiguous(rows: seq<Row>) {
    forall i, k :: 0 <= i < k < |rows| && rows[i].groupKey == rows[k].groupKey
      ==> rows[k - 1].groupKey == rows[k].groupKey
  }

  function HeadingAt(rows: seq<Row>, i: nat, headingOf: string -> string): string
    requires i < |rows|
  {
    if i == 0 || rows[i - 1].groupKey != rows[i].groupKey then headingOf(rows[i].groupKey) else ""
  }

  /** A row carries its group's heading exactly when the row before it is of another group. */
  ghost predicate HeadedRight(rows: seq<Row>, headingOf: string -> string) {
    forall i :: 0 <= i < |rows| ==> rows[i].heading == Some(HeadingAt(rows, i, headingOf))
  }

  lemma {:induction false} GroupConcat(a: seq<Row>, b: seq<Row>, key: string)
    ensures Group(a + b, key) == Group(a, key) + Group(b, key)
  {
    if a == [] {
      assert a + b == b && Group(a, key) + Group(b, key) == Group(b, key);
    } else {
      var rest := a[1..];
      assert (a + b)[0] == a[0] && (a + b)[1..] == rest + b;
      GroupConcat(rest, b, key);
      assert [a[0]] + (Group(rest, key) + Group(b, key)) == [a[0]] + Group(rest, key) + Group(b, key);
    }
  }

  lemma {:induction false} GroupOfGroup(rows: seq<Row>, key: string, other: string)
    requires forall x <- rows :: x.groupKey == key
    ensures Group(rows, other) == if other == key then rows else []
  {
    if rows != [] {
      GroupOfGroup(rows[1..], key, other);
    }
  }

  lemma HeadGroupKeys(rows: seq<Row>, key: string, heading: string)
    ensures forall x <- HeadGroup(Group(rows, key), heading) :: x.groupKey == key
  {
    GroupKeys(rows, key);
    var g := Group(rows, key);
    forall x <- HeadGroup(g, heading)
      ensures x.groupKey == key
    {
      var i :| 0 <= i < |g| && HeadGroup(g, heading)[i] == x;
      assert g[i] in g;
    }
  }

  lemma {:induction false} HeadedGroup(rows: seq<Row>, keys: seq<string>, headingOf: string -> string, key: string)
    requires Distinct(keys)
    ensures Group(Headed(rows, keys, headingOf), key) ==
              if key in keys then HeadGroup(Group(rows, key), headingOf(key)) else []
  {
    if keys != [] {
      var k := keys[0];
      var first := HeadGroup(Group(rows, k), headingOf(k));
      HeadedGroup(rows, keys[1..], headingOf, key);
      HeadGroupKeys(rows, k, headingOf(k));
      GroupOfGroup(first, k, key);
      GroupConcat(first, Headed(rows, keys[1..], headingOf), key);
    }
  }

  lemma ContiguousConcat(first: seq<Row>, rest: seq<Row>, key: string)
    requires forall i :: 0 <= i < |first| ==> first[i].groupKey == key
    requires forall i :: 0 <= i < |rest| ==> rest[i].groupKey != key
    requires Contiguous(rest)
    ensures Contiguous(first + rest)
  {
    var out := first + rest;
    forall i, k | 0 <= i < k < |out| && out[i].groupKey == out[k].groupKey
      ensures out[k - 1].groupKey == out[k].groupKey
    {
      var n := |first|;
      assert out[i] == if i < n then first[i] else rest[i - n];
      assert out[k] == if k < n then first[k] else rest[k - n];
      if k < n {
        assert out[k - 1] == first[k - 1];
      } else {
        assert i >= n;
        assert out[k - 1] == rest[k - n - 1];
      }
    }
  }

  lemma HeadedRightConcat(g: seq<Row>, rest: seq<Row>, key: string, headingOf: string -> string)
    requires forall i :: 0 <= i < |g| ==> g[i].groupKey == key
    requires forall i :: 0 <= i < |rest| ==> rest[i].groupKey != key
    requires HeadedRight(rest, headingOf)
    ensures HeadedRight(HeadGroup(g, headingOf(key)) + rest, headingOf)
  {
    var first := HeadGroup(g, headingOf(key));
    var out := first + rest;
    var n := |first|;
    forall i | 0 <= i < |out|
      ensures out[i].heading == Some(HeadingAt(out, i, headingOf))
    {
      if i < n {
        assert out[i] == first[i] && first[i].groupKey == g[i].groupKey;
        assert i > 0 ==> out[i - 1] == first[i - 1] && first[i - 1].groupKey == g[i - 1].groupKey;
      } else {
        assert out[i] == rest[i - n] && rest[i - n].heading == Some(HeadingAt(rest, i - n, headingOf));
        if i > n {
          assert out[i - 1] == rest[i - n - 1];
        } else if n > 0 {
          assert out[i - 1] == first[n - 1] && first[n - 1].groupKey == g[n - 1].groupKey;
        }
      }
    }
  }

  lemma OtherKeys(rows: seq<Row>, keys: seq<string>)
    requires Distinct(keys) && keys != [] && forall x <- rows :: x.groupKey in keys[1..]
    ensures forall i :: 0 <= i < |rows| ==> rows[i].groupKey != keys[0]
  {
    forall i | 0 <= i < |rows|
      ensures rows[i].groupKey != keys[0]
    {
      assert rows[i] in rows;
      var k :| 0 <= k < |keys| - 1 && keys[1..][k] == rows[i].groupKey;
      assert keys[k + 1] == rows[i].groupKey;
    }
  }

  lemma GroupRowsKey(rows: seq<Row>, key: string)
    ensures forall i :: 0 <= i < |Group(rows, key)| ==> Group(rows, key)[i].groupKey == key
  {
    GroupKeys(rows, key);
    forall i | 0 <= i < |Group(rows, key)|
      ensures Group(rows, key)[i].groupKey == key
    {
      assert Group(rows, key)[i] in Group(rows, key);
    }
  }

  lemma {:induction false} HeadedKeys(rows: seq<Row>, keys: seq<string>, headingOf: string -> string)
    ensures forall x <- Headed(rows, keys, headingOf) :: x.groupKey in keys
  {
    if keys != [] {
      HeadedKeys(rows, keys[1..], headingOf);
      HeadGroupKeys(rows, keys[0], headingOf(keys[0]));
    }
  }

  lemma {:induction false} HeadedFirstKeys(rows: seq<Row>, keys: seq<string>, headingOf: string -> string)
    requires Distinct(keys) && forall key <- keys :: Group(rows, key) != []
    ensures FirstKeys(Headed(rows, keys, headingOf)) == keys
  {
    if keys != [] {
      var k := keys[0];
      var rest := Headed(rows, keys[1..], headingOf);
      HeadedFirstKeys(rows, keys[1..], headingOf);
      HeadedKeys(rows, keys[1..], headingOf);
      OtherKeys(rest, keys);
      HeadGroupKeys(rows, k, headingOf(k));
      FirstKeysOfGroup(HeadGroup(Group(rows, k), headingOf(k)), k);
      FirstKeysConcat(HeadGroup(Group(rows, k), headingOf(k)), rest, k);
      assert keys == [k] + keys[1..];
    }
  }

  lemma {:induction false} HeadedLayout(rows: seq<Row>, keys: seq<string>, headingOf: string -> string)
    requires Distinct(keys)
    ensures Contiguous(Headed(rows, keys, headingOf)) && HeadedRight(Headed(rows, keys, headingOf), headingOf)
  {
    if keys != [] {
      var k := keys[0];
      var g := Group(rows, k);
      var rest := Headed(rows, keys[1..], headingOf);
      HeadedLayout(rows, keys[1..], headingOf);
      HeadedKeys(rows, keys[1..], headingOf);
      OtherKeys(rest, keys);
      GroupRowsKey(rows, k);
      ContiguousConcat(HeadGroup(g, headingOf(k)), rest, k);
      HeadedRightConcat(g, rest, k, headingOf);
    }
  }

  lemma {:induction false} FirstKeysOfGroup(rows: seq<Row>, key: string)
    requires rows != [] && forall x <- rows :: x.groupKey == key
    ensures FirstKeys(rows) == [key]
  {
    var init, last := rows[..|rows| - 1], rows[|rows| - 1];
    assert last in rows;
    if init != [] {
      FirstKeysOfGroup(init, key);
    }
  }

  lemma {:induction false} FirstKeysConcat(a: seq<Row>, b: seq<Row>, key: string)
    requires FirstKeys(a) == [key] && forall i :: 0 <= i < |b| ==> b[i].groupKey != key
    ensures FirstKeys(a + b) == [key] + FirstKeys(b)
    decreases |b|
  {
    if b == [] {
      assert a + b == a;
    } else {
      var init, last := b[..|b| - 1], b[|b| - 1];
      assert (a + b)[..|a + b| - 1] == a + init;
      FirstKeysConcat(a, init, key);
    }
  }

  /** Contiguous groups, in the order they first appeared, each headed once and holding the rows it held. */
  lemma HeadingsPromise(rows: seq<Row>, headingOf: string -> string)
    ensures var out := AllHeaded(rows, headingOf);
            && Contiguous(out) && HeadedRight(out, headingOf) && FirstKeys(out) == FirstKeys(rows)
            && forall key :: Group(out, key) == HeadGroup(Group(rows, key), headingOf(key))
  {
    FirstKeysAre(rows);
    HeadedLayout(rows, FirstKeys(rows), headingOf);
    HeadedFirstKeys(rows, FirstKeys(rows), headingOf);
    forall key
      ensures Group(AllHeaded(rows, headingOf), key) == HeadGroup(Group(rows, key), headingOf(key))
    {
      HeadedGroup(rows, FirstKeys(rows), headingOf, key);
    }
  }

  lemma HeadGroupTwice(rows: seq<Row>, heading: string)
    ensures HeadGroup(HeadGroup(rows, heading), heading) == HeadGroup(rows, heading)
  {
  }

  lemma {:induction false} SameHeaded(a: seq<Row>, b: seq<Row>, keys: seq<string>, headingOf: string -> string)
    requires forall key :: Group(b, key) == HeadGroup(Group(a, key), headingOf(key))
    ensures Headed(b, keys, headingOf) == Headed(a, keys, headingOf)
  {
    if keys != [] {
      HeadGroupTwice(Group(a, keys[0]), headingOf(keys[0]));
      SameHeaded(a, b, keys[1..], headingOf);
    }
  }

  /** A second heading pass changes nothing. */
  lemma HeadingsIdempotent(rows: seq<Row>, headingOf: string -> string)
    ensures AllHeaded(AllHeaded(rows, headingOf), headingOf) == AllHeaded(rows, headingOf)
  {
    HeadingsPromise(rows, headingOf);
    SameHeaded(rows, AllHeaded(rows, headingOf), FirstKeys(rows), headingOf);
  }

  // ---- No row is lost or doubled ----

  function Plain(rows: seq<Row>): (r: seq<Row>)
    ensures |r| == |rows|
  {
    seq(|rows|, i requires 0 <= i < |rows| => rows[i].(heading := None))
  }

  lemma {:induction false} PlainGroup(rows: seq<Row>, key: string)
    ensures Group(Plain(rows), key) == Plain(Group(rows, key))
  {
    if rows != [] {
      assert Plain(rows)[1..] == Plain(rows[1..]);
      PlainGroup(rows[1..], key);
    }
  }

  lemma PlainHeadGroup(rows: seq<Row>, heading: string)
    ensures Plain(HeadGroup(rows, heading)) == Plain(rows)
  {
  }

  lemma HeadingsConserve(rows: seq<Row>, headingOf: string -> string)
    ensures multiset(Plain(AllHeaded(rows, headingOf))) == multiset(Plain(rows))
  {
    var out := AllHeaded(rows, headingOf);
    HeadingsPromise(rows, headingOf);
    forall x: Row
      ensures multiset(Plain(out))[x] == multiset(Plain(rows))[x]
    {
      var key := x.groupKey;
      GroupCount(Plain(out), x);
      GroupCount(Plain(rows), x);
      PlainGroup(out, key);
      PlainGroup(rows, key);
      PlainHeadGroup(Group(rows, key), headingOf(key));
    }
  }
}
