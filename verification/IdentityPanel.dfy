/** How the identity panel divides a card's fields between the headline summary and the expandable details
    (SmartCardHandler::curateIdentitySummary, curateIdentityDetails and rebuildIdentityModel). */
module IdentityPanel {
  import opened Wrappers
  import opened FieldOrder
  import opened GroupHeadings
  import opened Text

  /** What makes a row the row it is: its group and its field within it. */
  datatype Identity = Identity(groupKey: string, fieldKey: string)

  function IdentityOf(row: Row): Identity {
    Identity(row.groupKey, row.fieldKey)
  }

  const SUMMARY_KEYS: seq<string> := [
    "surname", "family_name", "given_name", "given_names", "personal_number", "document_number",
    "document_serial_number", "doc_reg_no", "card_id", "document_type", "card_type", "date_of_expiry",
    "expiry_date", "valid_until"]

  const NAME_KEYS: seq<string> := ["surname", "family_name", "given_name", "given_names"]

  const FALLBACK_ROWS := 4

  predicate HasText(row: Row) {
    exists c <- row.value :: !IsSpace(c)
  }

  predicate Matches(row: Row, key: string) {
    row.fieldKey == key && HasText(row)
  }

  // ---- The summary ----

  predicate HasNameComponent(fields: seq<Row>) {
    exists row <- fields :: row.fieldKey in NAME_KEYS && HasText(row)
  }

  function EffectiveKeys(fields: seq<Row>): seq<string> {
    if HasNameComponent(fields) then SUMMARY_KEYS else ["full_name"] + SUMMARY_KEYS
  }

  /** A summary row carries the four members it needs, whatever else the source row had. */
  function SummaryRow(row: Row): Row {
    row.(heading := None)
  }

  /** The first row with text under a curated key. */
  function FirstMatch(fields: seq<Row>, key: string): (r: Option<Row>)
    ensures r.Some? ==> r.value in fields && Matches(r.value, key)
    ensures r.None? ==> forall row <- fields :: !Matches(row, key)
  {
    if fields == [] then None
    else if Matches(fields[0], key) then Some(fields[0])
    else FirstMatch(fields[1..], key)
  }

  /** The rows the curated keys pick, in the keys' order. */
  function Curated(fields: seq<Row>, keys: seq<string>): seq<Row> {
    if keys == [] then []
    else
      match FirstMatch(fields, keys[0])
      case Some(row) => [SummaryRow(row)] + Curated(fields, keys[1..])
      case None => Curated(fields, keys[1..])
  }

  /** The first `room` rows not seen before. */
  function Fallback(fields: seq<Row>, seen: set<Identity>, room: nat): seq<Row> {
    if fields == [] || room == 0 then []
    else if IdentityOf(fields[0]) in seen then Fallback(fields[1..], seen, room)
    else [SummaryRow(fields[0])] + Fallback(fields[1..], seen + {IdentityOf(fields[0])}, room - 1)
  }

  function Summary(fields: seq<Row>): seq<Row> {
    var curated := Curated(fields, EffectiveKeys(fields));
    if curated != [] then curated else Fallback(fields, {}, FALLBACK_ROWS)
  }

  method FindMatch(fields: seq<Row>, key: string) returns (r: Option<Row>)
    ensures r == FirstMatch(fields, key)
  {
    for i := 0 to |fields|
      invariant FirstMatch(fields, key) == FirstMatch(fields[i..], key)
    {
      if Matches(fields[i], key) {
        return Some(fields[i]);
      }
    }
    return None;
  }

  lemma {:induction false} CuratedAppend(fields: seq<Row>, keys: seq<string>, key: string)
    ensures Curated(fields, keys + [key]) ==
              match FirstMatch(fields, key)
              case Some(row) => Curated(fields, keys) + [SummaryRow(row)]
              case None => Curated(fields, keys)
  {
    var all := keys + [key];
    if keys == [] {
      assert all == [key] && all[1..] == [];
    } else {
      assert all[0] == keys[0] && all[1..] == keys[1..] + [key];
      CuratedAppend(fields, keys[1..], key);
    }
  }

  lemma FallbackStep(fields: seq<Row>, i: nat, seen: set<Identity>, room: nat, before: seq<Row>)
    requires i < |fields| && room > 0
    ensures before + Fallback(fields[i..], seen, room) ==
              if IdentityOf(fields[i]) in seen then before + Fallback(fields[i + 1..], seen, room)
              else
                before + [SummaryRow(fields[i])]
                + Fallback(fields[i + 1..], seen + {IdentityOf(fields[i])}, room - 1)
  {
    assert fields[i..][1..] == fields[i + 1..];
    if IdentityOf(fields[i]) !in seen {
      var rest := Fallback(fields[i + 1..], seen + {IdentityOf(fields[i])}, room - 1);
      assert before + ([SummaryRow(fields[i])] + rest) == before + [SummaryRow(fields[i])] + rest;
    }
  }

  method FallbackRows(fields: seq<Row>) returns (summary: seq<Row>)
    ensures summary == Fallback(fields, {}, FALLBACK_ROWS)
  {
    summary := [];
    var seen: set<Identity> := {};
    assert fields[0..] == fields;
    for i := 0 to |fields|
      invariant |summary| < FALLBACK_ROWS
      invariant Fallback(fields, {}, FALLBACK_ROWS) == summary + Fallback(fields[i..], seen, FALLBACK_ROWS - |summary|)
    {
      FallbackStep(fields, i, seen, FALLBACK_ROWS - |summary|, summary);
      if IdentityOf(fields[i]) in seen {
        continue;
      }
      seen := seen + {IdentityOf(fields[i])};
      summary := summary + [SummaryRow(fields[i])];
      if |summary| >= FALLBACK_ROWS {
        assert summary + [] == summary;
        return;
      }
    }
    assert summary + [] == summary;
  }

  method CuratedRows(fields: seq<Row>, keys: seq<string>) returns (summary: seq<Row>)
    ensures summary == Curated(fields, keys)
  {
    summary := [];
    for i := 0 to |keys|
      invariant summary == Curated(fields, keys[..i])
    {
      CuratedAppend(fields, keys[..i], keys[i]);
      assert keys[..i + 1] == keys[..i] + [keys[i]];
      var row := FindMatch(fields, keys[i]);
      if row.Some? {
        summary := summary + [SummaryRow(row.value)];
      }
    }
    assert keys[..|keys|] == keys;
  }

  method CurateIdentitySummary(fields: seq<Row>) returns (summary: seq<Row>)
    ensures summary == Summary(fields)
  {
    summary := CuratedRows(fields, EffectiveKeys(fields));
    if summary == [] {
      summary := FallbackRows(fields);
    }
  }

  // ---- The details ----

  /** The rows left once the first row of each identity in `ids` is taken out. */
  function Details(fields: seq<Row>, ids: set<Identity>): seq<Row> {
    if fields == [] then []
    else if IdentityOf(fields[0]) in ids then Details(fields[1..], ids - {IdentityOf(fields[0])})
    else [fields[0]] + Details(fields[1..], ids)
  }

  /** The rows taken out. */
  function Taken(fields: seq<Row>, ids: set<Identity>): seq<Row> {
    if fields == [] then []
    else if IdentityOf(fields[0]) in ids then [fields[0]] + Taken(fields[1..], ids - {IdentityOf(fields[0])})
    else Taken(fields[1..], ids)
  }

  function Identities(rows: seq<Row>): (ids: seq<Identity>)
    ensures |ids| == |rows|
  {
    seq(|rows|, i requires 0 <= i < |rows| => IdentityOf(rows[i]))
  }

  method CurateIdentityDetails(fields: seq<Row>, summary: seq<Row>) returns (details: seq<Row>)
    ensures details == Details(fields, set id <- Identities(summary))
  {
    var summarised: set<Identity> := {};
    for i := 0 to |summary|
      invariant summarised == set id <- Identities(summary[..i])
    {
      assert Identities(summary[..i + 1]) == Identities(summary[..i]) + [IdentityOf(summary[i])];
      summarised := summarised + {IdentityOf(summary[i])};
    }
    assert summary[..|summary|] == summary;
    details := [];
    ghost var ids := summarised;
    for i := 0 to |fields|
      invariant Details(fields, ids) == details + Details(fields[i..], summarised)
    {
      assert fields[i..][1..] == fields[i + 1..];
      if IdentityOf(fields[i]) in summarised {
        summarised := summarised - {IdentityOf(fields[i])};
        continue;
      }
      ghost var before, rest := details, Details(fields[i + 1..], summarised);
      details := details + [fields[i]];
      assert before + ([fields[i]] + rest) == details + rest;
    }
  }

  // ---- Summary and details partition the fields ----

  /** Length and first letter, which tell the curated keys apart. */
  function Tag(key: string): int
    requires key != ""
  {
    |key| * 0x80 + key[0] as int
  }

  const TAGS: seq<int> := [1011, 1510, 1383, 1511, 2032, 2020, 2916, 1380, 995, 1764, 1251, 1892, 1509, 1526]

  lemma SummaryTag(i: nat)
    requires i < |SUMMARY_KEYS|
    ensures SUMMARY_KEYS[i] != "" && i < |TAGS| && Tag(SUMMARY_KEYS[i]) == TAGS[i]
  {
  }

  lemma TagsDistinct()
    ensures forall i, j :: 0 <= i < j < |TAGS| ==> TAGS[i] != TAGS[j]
    ensures forall i :: 0 <= i < |TAGS| ==> TAGS[i] != Tag("full_name")
  {
  }

  lemma SummaryKeysDistinct()
    ensures Distinct(SUMMARY_KEYS) && "full_name" !in SUMMARY_KEYS
  {
    var keys, full := SUMMARY_KEYS, "full_name";
    TagsDistinct();
    forall i, j | 0 <= i < j < |keys|
      ensures keys[i] != keys[j]
    {
      SummaryTag(i);
      SummaryTag(j);
    }
    forall i | 0 <= i < |keys|
      ensures keys[i] != full
    {
      SummaryTag(i);
    }
  }

  lemma KeysDistinct(fields: seq<Row>)
    ensures Distinct(EffectiveKeys(fields))
  {
    SummaryKeysDistinct();
    DistinctAhead("full_name", SUMMARY_KEYS);
  }

  lemma DistinctAhead(key: string, keys: seq<string>)
    requires Distinct(keys) && key !in keys
    ensures Distinct([key] + keys)
  {
  }

  ghost predicate DistinctIds(rows: seq<Row>) {
    forall i, j :: 0 <= i < j < |rows| ==> IdentityOf(rows[i]) != IdentityOf(rows[j])
  }

  /** Every row of the summary is a row of the fields, less its heading. */
  ghost predicate DrawnFrom(rows: seq<Row>, fields: seq<Row>) {
    forall row <- rows :: exists f <- fields :: row == SummaryRow(f)
  }

  lemma DistinctCons(row: Row, rest: seq<Row>)
    requires DistinctIds(rest) && forall r <- rest :: IdentityOf(r) != IdentityOf(row)
    ensures DistinctIds([row] + rest)
  {
    var all := [row] + rest;
    forall i, j | 0 <= i < j < |all|
      ensures IdentityOf(all[i]) != IdentityOf(all[j])
    {
      assert all[j] == rest[j - 1] && (i > 0 ==> all[i] == rest[i - 1]);
    }
  }

  lemma DrawnCons(row: Row, rest: seq<Row>, fields: seq<Row>)
    requires DrawnFrom(rest, fields) && row in fields
    ensures DrawnFrom([SummaryRow(row)] + rest, fields)
  {
  }

  lemma DrawnMore(rows: seq<Row>, f: Row, fields: seq<Row>)
    requires DrawnFrom(rows, fields)
    ensures DrawnFrom(rows, [f] + fields)
  {
    forall row <- rows
      ensures exists g <- [f] + fields :: row == SummaryRow(g)
    {
      var g :| g in fields && row == SummaryRow(g);
      assert g in [f] + fields;
    }
  }

  lemma {:induction false} CuratedKeys(fields: seq<Row>, keys: seq<string>)
    ensures forall i :: 0 <= i < |Curated(fields, keys)| ==> Curated(fields, keys)[i].fieldKey in keys
    ensures DrawnFrom(Curated(fields, keys), fields)
  {
    if keys != [] {
      CuratedKeys(fields, keys[1..]);
      match FirstMatch(fields, keys[0])
      case Some(row) => DrawnCons(row, Curated(fields, keys[1..]), fields);
      case None =>
    }
  }

  lemma {:induction false} CuratedDistinct(fields: seq<Row>, keys: seq<string>)
    requires Distinct(keys)
    ensures DistinctIds(Curated(fields, keys))
  {
    if keys != [] {
      var rest := Curated(fields, keys[1..]);
      CuratedDistinct(fields, keys[1..]);
      CuratedKeys(fields, keys[1..]);
      match FirstMatch(fields, keys[0])
      case None =>
      case Some(row) =>
        forall r <- rest
          ensures IdentityOf(r) != IdentityOf(SummaryRow(row))
        {
          var i :| 0 <= i < |rest| && rest[i] == r;
          var k :| 0 <= k < |keys| - 1 && keys[1..][k] == r.fieldKey;
          assert keys[k + 1] == r.fieldKey;
        }
        DistinctCons(SummaryRow(row), rest);
    }
  }

  lemma {:induction false} FallbackDrawn(fields: seq<Row>, seen: set<Identity>, room: nat)
    ensures DrawnFrom(Fallback(fields, seen, room), fields)
    ensures forall row <- Fallback(fields, seen, room) :: IdentityOf(row) !in seen
  {
    if fields != [] && room > 0 {
      var f, more := fields[0], fields[1..];
      assert fields == [f] + more;
      if IdentityOf(f) in seen {
        FallbackDrawn(more, seen, room);
        DrawnMore(Fallback(more, seen, room), f, more);
      } else {
        var rest := Fallback(more, seen + {IdentityOf(f)}, room - 1);
        FallbackDrawn(more, seen + {IdentityOf(f)}, room - 1);
        DrawnMore(rest, f, more);
        DrawnCons(f, rest, fields);
      }
    }
  }

  lemma {:induction false} FallbackDistinct(fields: seq<Row>, seen: set<Identity>, room: nat)
    ensures DistinctIds(Fallback(fields, seen, room))
  {
    if fields != [] && room > 0 {
      if IdentityOf(fields[0]) in seen {
        FallbackDistinct(fields[1..], seen, room);
      } else {
        var grown := seen + {IdentityOf(fields[0])};
        FallbackDistinct(fields[1..], grown, room - 1);
        FallbackDrawn(fields[1..], grown, room - 1);
        DistinctCons(SummaryRow(fields[0]), Fallback(fields[1..], grown, room - 1));
      }
    }
  }

  /** The summary repeats no identity and invents no row, and is empty only when the fields are. */
  lemma SummaryRows(fields: seq<Row>)
    ensures DistinctIds(Summary(fields)) && DrawnFrom(Summary(fields), fields)
    ensures Summary(fields) == [] <==> fields == []
  {
    KeysDistinct(fields);
    CuratedKeys(fields, EffectiveKeys(fields));
    CuratedDistinct(fields, EffectiveKeys(fields));
    FallbackDrawn(fields, {}, FALLBACK_ROWS);
    FallbackDistinct(fields, {}, FALLBACK_ROWS);
    var curated := Curated(fields, EffectiveKeys(fields));
    if curated != [] {
      assert curated[0] in curated;
    }
  }

  lemma {:induction false} SplitConserves(fields: seq<Row>, ids: set<Identity>)
    ensures multiset(fields) == multiset(Details(fields, ids)) + multiset(Taken(fields, ids))
  {
    if fields != [] {
      var f := fields[0];
      SplitConserves(fields[1..], if IdentityOf(f) in ids then ids - {IdentityOf(f)} else ids);
      assert fields == [f] + fields[1..];
    }
  }

  lemma {:induction false} SplitConservesIds(fields: seq<Row>, ids: set<Identity>)
    ensures multiset(Identities(fields)) ==
              multiset(Identities(Details(fields, ids))) + multiset(Identities(Taken(fields, ids)))
  {
    if fields != [] {
      var f := fields[0];
      var left := if IdentityOf(f) in ids then ids - {IdentityOf(f)} else ids;
      SplitConservesIds(fields[1..], left);
      assert fields == [f] + fields[1..];
      IdentitiesCons(f, fields[1..]);
      if IdentityOf(f) in ids {
        IdentitiesCons(f, Taken(fields[1..], left));
      } else {
        IdentitiesCons(f, Details(fields[1..], left));
      }
    }
  }

  lemma IdentitiesCons(row: Row, rows: seq<Row>)
    ensures Identities([row] + rows) == [IdentityOf(row)] + Identities(rows)
  {
  }

  /** The first row of an identity. */
  function First(fields: seq<Row>, id: Identity): Option<Row> {
    if fields == [] then None
    else if IdentityOf(fields[0]) == id then Some(fields[0])
    else First(fields[1..], id)
  }

  /** What is taken out is, of each identity asked for and present, its first row. */
  lemma {:induction false} TakenIsFirst(fields: seq<Row>, ids: set<Identity>)
    ensures DistinctIds(Taken(fields, ids))
    ensures forall row :: row in Taken(fields, ids) <==>
              IdentityOf(row) in ids && First(fields, IdentityOf(row)) == Some(row)
  {
    if fields != [] {
      var f := fields[0];
      var left := if IdentityOf(f) in ids then ids - {IdentityOf(f)} else ids;
      TakenIsFirst(fields[1..], left);
      var rest := Taken(fields[1..], left);
      assert forall i :: 0 <= i < |rest| ==> rest[i] in rest && IdentityOf(rest[i]) in left;
    }
  }

  lemma {:induction false} FirstFound(fields: seq<Row>, row: Row)
    requires row in fields
    ensures First(fields, IdentityOf(row)).Some?
    ensures IdentityOf(First(fields, IdentityOf(row)).value) == IdentityOf(row)
  {
    if fields[0] != row {
      assert row in fields[1..];
      FirstFound(fields[1..], row);
    }
  }

  /** Rows without a repeated identity are counted by membership. */
  lemma {:induction false} DistinctCount(rows: seq<Row>)
    requires DistinctIds(rows)
    ensures forall row :: multiset(rows)[row] == if row in rows then 1 else 0
    ensures forall id :: multiset(Identities(rows))[id] == if id in Identities(rows) then 1 else 0
  {
    if rows != [] {
      var r, rest := rows[0], rows[1..];
      assert DistinctIds(rest);
      DistinctCount(rest);
      assert rows == [r] + rest;
      IdentitiesCons(r, rest);
      forall i | 0 <= i < |rest|
        ensures IdentityOf(rest[i]) != IdentityOf(r)
      {
        assert rest[i] == rows[i + 1];
      }
      assert IdentityOf(r) !in Identities(rest);
    }
  }

  function SummaryIds(fields: seq<Row>): set<Identity> {
    set id <- Identities(Summary(fields))
  }

  function PanelDetails(fields: seq<Row>): seq<Row> {
    Details(fields, SummaryIds(fields))
  }

  /** An identity occurs in the list exactly when some row has it. */
  lemma IdentityIn(rows: seq<Row>, id: Identity)
    ensures id in Identities(rows) <==> exists row <- rows :: IdentityOf(row) == id
  {
    if id in Identities(rows) {
      var i :| 0 <= i < |rows| && Identities(rows)[i] == id;
      assert rows[i] in rows;
    }
    forall row <- rows | IdentityOf(row) == id
      ensures id in Identities(rows)
    {
      var i :| 0 <= i < |rows| && rows[i] == row;
      assert Identities(rows)[i] == id;
    }
  }

  /** Every identity the summary shows is taken out of the details, and no other. */
  lemma TakenCovers(fields: seq<Row>, id: Identity)
    ensures id in Identities(Taken(fields, SummaryIds(fields))) <==> id in Identities(Summary(fields))
  {
    var taken, summary := Taken(fields, SummaryIds(fields)), Summary(fields);
    TakenIsFirst(fields, SummaryIds(fields));
    IdentityIn(taken, id);
    if id in Identities(summary) {
      SummaryRows(fields);
      IdentityIn(summary, id);
      var row :| row in summary && IdentityOf(row) == id;
      var f :| f in fields && row == SummaryRow(f);
      FirstFound(fields, f);
      assert First(fields, id).value in taken;
    }
  }

  lemma TakenIdentities(fields: seq<Row>)
    ensures multiset(Identities(Taken(fields, SummaryIds(fields)))) == multiset(Identities(Summary(fields)))
  {
    SummaryRows(fields);
    TakenIsFirst(fields, SummaryIds(fields));
    DistinctCount(Taken(fields, SummaryIds(fields)));
    DistinctCount(Summary(fields));
    forall id
      ensures id in Identities(Taken(fields, SummaryIds(fields))) <==> id in Identities(Summary(fields))
    {
      TakenCovers(fields, id);
    }
  }

  /** For any fields at all, every identity appears in the summary and the details together exactly as often
      as it was delivered. */
  lemma IdentitiesConserved(fields: seq<Row>)
    ensures multiset(Identities(fields)) ==
              multiset(Identities(Summary(fields))) + multiset(Identities(PanelDetails(fields)))
  {
    SplitConservesIds(fields, SummaryIds(fields));
    TakenIdentities(fields);
  }

  /** Every row the summary shows is the first one of its identity. */
  ghost predicate SummaryTakesFirst(fields: seq<Row>) {
    forall row <- Summary(fields) :: First(fields, IdentityOf(row)) == Some(row)
  }

  /** What is taken out is what the summary shows, exactly when the summary shows first rows. */
  lemma TakenIsShown(fields: seq<Row>)
    ensures multiset(Taken(fields, SummaryIds(fields))) == multiset(Summary(fields)) <==> SummaryTakesFirst(fields)
  {
    var summary, taken := Summary(fields), Taken(fields, SummaryIds(fields));
    TakenIsFirst(fields, SummaryIds(fields));
    SummaryRows(fields);
    DistinctCount(summary);
    DistinctCount(taken);
    forall row <- summary
      ensures row in taken <==> First(fields, IdentityOf(row)) == Some(row)
    {
      IdentityIn(summary, IdentityOf(row));
    }
    if SummaryTakesFirst(fields) {
      forall row
        ensures row in taken <==> row in summary
      {
        IdentityIn(summary, IdentityOf(row));
      }
    } else {
      var row :| row in summary && First(fields, IdentityOf(row)) != Some(row);
      assert multiset(taken)[row] == 0 && multiset(summary)[row] == 1;
    }
  }

  lemma ConservedIfTaken(fields: seq<Row>)
    ensures multiset(fields) == multiset(Summary(fields)) + multiset(PanelDetails(fields)) <==>
            multiset(Taken(fields, SummaryIds(fields))) == multiset(Summary(fields))
  {
    SplitConserves(fields, SummaryIds(fields));
    CancelRight(multiset(Taken(fields, SummaryIds(fields))), multiset(Summary(fields)), multiset(PanelDetails(fields)));
  }

  lemma CancelRight(a: multiset<Row>, b: multiset<Row>, c: multiset<Row>)
    ensures c + a == b + c <==> a == b
  {
    if c + a == b + c {
      forall row
        ensures a[row] == b[row]
      {
        assert (c + a)[row] == (b + c)[row];
      }
    }
  }

  /** No row of the same identity stands ahead of the first row with text under a curated key. */
  ghost predicate TextComesFirst(fields: seq<Row>) {
    forall key <- EffectiveKeys(fields) :: FirstMatch(fields, key).Some? ==>
      First(fields, IdentityOf(FirstMatch(fields, key).value)) == FirstMatch(fields, key)
  }

  ghost predicate Unheaded(fields: seq<Row>) {
    forall row <- fields :: row.heading == None
  }

  /** What the curated keys pick: of each key, its first row with text. */
  lemma {:induction false} CuratedHolds(fields: seq<Row>, keys: seq<string>)
    requires Unheaded(fields)
    ensures forall row :: row in Curated(fields, keys) <==> exists key <- keys :: FirstMatch(fields, key) == Some(row)
  {
    if keys != [] {
      CuratedHolds(fields, keys[1..]);
      forall row
        ensures row in Curated(fields, keys) <==> exists key <- keys :: FirstMatch(fields, key) == Some(row)
      {
        assert (exists key <- keys :: FirstMatch(fields, key) == Some(row)) <==>
               FirstMatch(fields, keys[0]) == Some(row)
               || exists key <- keys[1..] :: FirstMatch(fields, key) == Some(row) by {
          assert keys == [keys[0]] + keys[1..];
        }
      }
    }
  }

  lemma {:induction false} CuratedNothing(fields: seq<Row>, keys: seq<string>)
    requires Curated(fields, keys) == []
    ensures forall key <- keys :: FirstMatch(fields, key).None?
  {
    if keys != [] {
      assert FirstMatch(fields, keys[0]).None?;
      CuratedNothing(fields, keys[1..]);
      assert forall key <- keys :: key == keys[0] || key in keys[1..];
    }
  }

  /** The fallback shows first rows only. */
  lemma {:induction false} FallbackFirst(fields: seq<Row>, seen: set<Identity>, room: nat)
    requires Unheaded(fields)
    ensures forall row <- Fallback(fields, seen, room) :: First(fields, IdentityOf(row)) == Some(row)
  {
    if fields != [] && room > 0 {
      FallbackDrawn(fields, seen, room);
      if IdentityOf(fields[0]) in seen {
        FallbackFirst(fields[1..], seen, room);
        FallbackDrawn(fields[1..], seen, room);
      } else {
        var grown := seen + {IdentityOf(fields[0])};
        FallbackFirst(fields[1..], grown, room - 1);
        FallbackDrawn(fields[1..], grown, room - 1);
      }
    }
  }

  lemma ShownFirstIff(fields: seq<Row>)
    requires Unheaded(fields)
    ensures SummaryTakesFirst(fields) <==> TextComesFirst(fields)
  {
    var keys := EffectiveKeys(fields);
    CuratedHolds(fields, keys);
    FallbackFirst(fields, {}, FALLBACK_ROWS);
    if Curated(fields, keys) == [] {
      CuratedNothing(fields, keys);
    } else {
      assert Summary(fields) == Curated(fields, keys);
      if SummaryTakesFirst(fields) {
        forall key <- keys | FirstMatch(fields, key).Some?
          ensures First(fields, IdentityOf(FirstMatch(fields, key).value)) == FirstMatch(fields, key)
        {
          assert FirstMatch(fields, key).value in Curated(fields, keys);
        }
      }
    }
  }

  /** Of the rows as they are delivered, without headings, every one is shown, and shown once, if and only if no row
      of the same identity stands ahead of the first row with text under a curated key. */
  lemma RowsConservedIff(fields: seq<Row>)
    requires Unheaded(fields)
    ensures multiset(fields) == multiset(Summary(fields)) + multiset(PanelDetails(fields)) <==> TextComesFirst(fields)
  {
    ConservedIfTaken(fields);
    TakenIsShown(fields);
    ShownFirstIff(fields);
  }

  /** The wire delivers each identity once, and then no row is lost or shown twice. */
  lemma RowsConserved(fields: seq<Row>)
    requires DistinctIds(fields) && Unheaded(fields)
    ensures TextComesFirst(fields)
    ensures multiset(fields) == multiset(Summary(fields)) + multiset(PanelDetails(fields))
  {
    forall key <- EffectiveKeys(fields) | FirstMatch(fields, key).Some?
      ensures First(fields, IdentityOf(FirstMatch(fields, key).value)) == FirstMatch(fields, key)
    {
      OnlyFirst(fields, FirstMatch(fields, key).value);
    }
    RowsConservedIff(fields);
  }

  lemma {:induction false} OnlyFirst(fields: seq<Row>, row: Row)
    requires DistinctIds(fields) && row in fields
    ensures First(fields, IdentityOf(row)) == Some(row)
  {
    if fields[0] != row {
      assert row in fields[1..];
      var i :| 0 <= i < |fields| - 1 && fields[1..][i] == row;
      assert fields[i + 1] == row;
      OnlyFirst(fields[1..], row);
    }
  }

  const BLANK_SURNAME := Row("personal", "surname", "Surname", " ", None)
  const FULL_SURNAME := Row("personal", "surname", "Surname", "X", None)

  lemma SurnameSummary()
    ensures Summary([BLANK_SURNAME, FULL_SURNAME]) == [FULL_SURNAME]
  {
    var fields := [BLANK_SURNAME, FULL_SURNAME];
    assert fields[1..] == [FULL_SURNAME] && fields[1] == FULL_SURNAME;
    assert 'X' in FULL_SURNAME.value;
    assert SUMMARY_KEYS[0] == "surname" && NAME_KEYS[0] == "surname";
    assert HasNameComponent(fields);
    assert FirstMatch(fields, "surname") == Some(FULL_SURNAME);
    KeysDistinct(fields);
    NothingElse(fields, SUMMARY_KEYS[1..]);
    assert Curated(fields, SUMMARY_KEYS) == [FULL_SURNAME] + Curated(fields, SUMMARY_KEYS[1..]);
  }

  /** A blank row in front of a full one of the same identity: the full one is shown twice, the blank one is
      gone. */
  lemma RepeatedIdentityLosesARow()
    ensures Summary([BLANK_SURNAME, FULL_SURNAME]) == [FULL_SURNAME]
    ensures PanelDetails([BLANK_SURNAME, FULL_SURNAME]) == [FULL_SURNAME]
  {
    var fields := [BLANK_SURNAME, FULL_SURNAME];
    SurnameSummary();
    var id := IdentityOf(FULL_SURNAME);
    assert Identities([FULL_SURNAME])[0] == id;
    assert SummaryIds(fields) == {id};
    assert {id} - {id} == {};
    assert fields[1..] == [FULL_SURNAME] && [FULL_SURNAME][1..] == [];
    assert Details(fields, {id}) == Details([FULL_SURNAME], {});
  }

  lemma {:induction false} NothingElse(fields: seq<Row>, keys: seq<string>)
    requires forall row <- fields :: row.fieldKey !in keys
    ensures Curated(fields, keys) == []
  {
    if keys != [] {
      NothingElse(fields, keys[1..]);
    }
  }

  // ---- What is shown, by the places of the delivered rows ----

  lemma {:induction false} FirstMatchAt(fields: seq<Row>, key: string, i: nat)
    requires i < |fields| && fields[i].fieldKey == key && (exists c <- fields[i].value :: !IsSpace(c))
    requires forall j :: 0 <= j < i ==> fields[j].fieldKey != key || forall c <- fields[j].value :: IsSpace(c)
    ensures FirstMatch(fields, key) == Some(fields[i])
  {
    if i > 0 {
      assert !Matches(fields[0], key);
      assert forall j :: 0 <= j < i - 1 ==> fields[1..][j] == fields[j + 1];
      FirstMatchAt(fields[1..], key, i - 1);
    }
  }

  /** The free-form full name is a headline only when no component of the name has text, and then it comes first. */
  lemma FullNameStandsIn(fields: seq<Row>)
    ensures var keys := EffectiveKeys(fields);
            if exists row <- fields :: row.fieldKey in ["surname", "family_name", "given_name", "given_names"]
                 && exists c <- row.value :: !IsSpace(c)
            then keys == SUMMARY_KEYS && "full_name" !in keys
            else keys == ["full_name"] + SUMMARY_KEYS
  {
    SummaryKeysDistinct();
  }

  ghost predicate InKeyOrder(keys: seq<string>, x: Row, y: Row) {
    exists a, b :: 0 <= a < b < |keys| && keys[a] == x.fieldKey && keys[b] == y.fieldKey
  }

  /** The curated rows stand in the order of their keys. */
  lemma {:induction false} CuratedOrder(fields: seq<Row>, keys: seq<string>, i: nat, j: nat)
    requires i < j < |Curated(fields, keys)|
    ensures InKeyOrder(keys, Curated(fields, keys)[i], Curated(fields, keys)[j])
  {
    var rest := Curated(fields, keys[1..]);
    match FirstMatch(fields, keys[0])
    case None =>
      CuratedOrder(fields, keys[1..], i, j);
      var a, b :| 0 <= a < b < |keys| - 1 && keys[1..][a] == rest[i].fieldKey && keys[1..][b] == rest[j].fieldKey;
      assert keys[a + 1] == rest[i].fieldKey && keys[b + 1] == rest[j].fieldKey;
    case Some(row) =>
      if i == 0 {
        CuratedKeys(fields, keys[1..]);
        var b :| 0 <= b < |keys| - 1 && keys[1..][b] == rest[j - 1].fieldKey;
        assert keys[0] == SummaryRow(row).fieldKey && keys[b + 1] == rest[j - 1].fieldKey;
      } else {
        CuratedOrder(fields, keys[1..], i - 1, j - 1);
        var a, b :| 0 <= a < b < |keys| - 1 && keys[1..][a] == rest[i - 1].fieldKey
                    && keys[1..][b] == rest[j - 1].fieldKey;
        assert keys[a + 1] == rest[i - 1].fieldKey && keys[b + 1] == rest[j - 1].fieldKey;
      }
  }

  /** Some curated key has text: the summary is, of each such key, its first row with text, in the keys' order. */
  lemma CuratedIs(fields: seq<Row>)
    requires Unheaded(fields) && exists key <- EffectiveKeys(fields) :: FirstMatch(fields, key).Some?
    ensures var keys, summary := EffectiveKeys(fields), Summary(fields);
            && (forall row :: row in summary <==> exists key <- keys :: FirstMatch(fields, key) == Some(row))
            && forall i, j :: 0 <= i < j < |summary| ==> InKeyOrder(keys, summary[i], summary[j])
  {
    var keys := EffectiveKeys(fields);
    CuratedHolds(fields, keys);
    var key :| key in keys && FirstMatch(fields, key).Some?;
    assert FirstMatch(fields, key).value in Curated(fields, keys);
    assert Summary(fields) == Curated(fields, keys);
    forall i, j | 0 <= i < j < |Curated(fields, keys)|
      ensures InKeyOrder(keys, Curated(fields, keys)[i], Curated(fields, keys)[j])
    {
      CuratedOrder(fields, keys, i, j);
    }
  }

  /** No row ahead of the one at `i` has its identity. */
  ghost predicate FirstOfIdentity(fields: seq<Row>, i: nat)
    requires i < |fields|
  {
    forall j :: 0 <= j < i ==> IdentityOf(fields[j]) != IdentityOf(fields[i])
  }

  /** The places from `i` on that hold the first row of an identity. */
  ghost function FirstPlaces(fields: seq<Row>, i: nat): (at: seq<nat>)
    requires i <= |fields|
    ensures forall k :: 0 <= k < |at| ==> i <= at[k] < |fields|
    decreases |fields| - i
  {
    if i == |fields| then [] else (if FirstOfIdentity(fields, i) then [i] else []) + FirstPlaces(fields, i + 1)
  }

  /** The places from `i` on that the details keep: all but the first row of each identity in `ids`. */
  ghost function KeptPlaces(fields: seq<Row>, ids: set<Identity>, i: nat): (at: seq<nat>)
    requires i <= |fields|
    ensures forall k :: 0 <= k < |at| ==> i <= at[k] < |fields|
    decreases |fields| - i
  {
    if i == |fields| then []
    else
      (if IdentityOf(fields[i]) in ids && FirstOfIdentity(fields, i) then [] else [i])
      + KeptPlaces(fields, ids, i + 1)
  }

  ghost predicate Ascending(at: seq<nat>) {
    forall k, l :: 0 <= k < l < |at| ==> at[k] < at[l]
  }

  lemma {:induction false} FirstPlacesAre(fields: seq<Row>, i: nat)
    requires i <= |fields|
    ensures Ascending(FirstPlaces(fields, i))
    ensures forall j: nat :: j in FirstPlaces(fields, i) <==> i <= j < |fields| && FirstOfIdentity(fields, j)
    decreases |fields| - i
  {
    if i < |fields| {
      FirstPlacesAre(fields, i + 1);
    }
  }

  lemma {:induction false} KeptPlacesAre(fields: seq<Row>, ids: set<Identity>, i: nat)
    requires i <= |fields|
    ensures Ascending(KeptPlaces(fields, ids, i))
    ensures forall j: nat :: j in KeptPlaces(fields, ids, i) <==>
              i <= j < |fields| && !(IdentityOf(fields[j]) in ids && FirstOfIdentity(fields, j))
    decreases |fields| - i
  {
    if i < |fields| {
      KeptPlacesAre(fields, ids, i + 1);
    }
  }

  function RowsAt(fields: seq<Row>, at: seq<nat>): (rows: seq<Row>)
    requires forall k :: 0 <= k < |at| ==> at[k] < |fields|
    ensures |rows| == |at| && forall k :: 0 <= k < |at| ==> rows[k] == fields[at[k]]
  {
    seq(|at|, k requires 0 <= k < |at| => fields[at[k]])
  }

  function IdsBefore(fields: seq<Row>, i: nat): set<Identity>
    requires i <= |fields|
  {
    set j | 0 <= j < i :: IdentityOf(fields[j])
  }

  function UpTo(at: seq<nat>, room: nat): (r: seq<nat>)
    ensures r <= at && |r| <= room && (|r| < room ==> r == at)
  {
    if |at| <= room then at else at[..room]
  }

  lemma UpToCons(i: nat, rest: seq<nat>, room: nat)
    requires room > 0
    ensures UpTo([i] + rest, room) == [i] + UpTo(rest, room - 1)
  {
  }

  lemma RowsAtCons(fields: seq<Row>, i: nat, rest: seq<nat>)
    requires i < |fields| && forall k :: 0 <= k < |rest| ==> rest[k] < |fields|
    ensures forall k :: 0 <= k < |[i] + rest| ==> ([i] + rest)[k] < |fields|
    ensures RowsAt(fields, [i] + rest) == [fields[i]] + RowsAt(fields, rest)
  {
  }

  lemma FirstPlacesStep(fields: seq<Row>, i: nat)
    requires i < |fields|
    ensures IdsBefore(fields, i + 1) == IdsBefore(fields, i) + {IdentityOf(fields[i])}
    ensures FirstPlaces(fields, i) ==
              if IdentityOf(fields[i]) in IdsBefore(fields, i) then FirstPlaces(fields, i + 1)
              else [i] + FirstPlaces(fields, i + 1)
  {
  }

  /** The fallback from the row at `i` on is the rows of the first places from there on, as many as there is room. */
  ghost predicate FallbackTakes(fields: seq<Row>, i: nat, room: nat)
    requires i <= |fields|
  {
    Fallback(fields[i..], IdsBefore(fields, i), room) == RowsAt(fields, UpTo(FirstPlaces(fields, i), room))
  }

  lemma FallbackNothing(fields: seq<Row>, i: nat, room: nat)
    requires i <= |fields| && (i == |fields| || room == 0)
    ensures FallbackTakes(fields, i, room)
  {
    assert UpTo(FirstPlaces(fields, i), room) == [];
  }

  lemma FallbackSkips(fields: seq<Row>, i: nat, room: nat)
    requires i < |fields| && room > 0 && Unheaded(fields) && IdentityOf(fields[i]) in IdsBefore(fields, i)
    requires FallbackTakes(fields, i + 1, room)
    ensures FallbackTakes(fields, i, room)
  {
    FirstPlacesStep(fields, i);
    FallbackOne(fields, i, IdsBefore(fields, i), room);
    assert IdsBefore(fields, i) + {IdentityOf(fields[i])} == IdsBefore(fields, i);
  }

  lemma FallbackShows(fields: seq<Row>, i: nat, room: nat)
    requires i < |fields| && room > 0 && Unheaded(fields) && IdentityOf(fields[i]) !in IdsBefore(fields, i)
    requires FallbackTakes(fields, i + 1, room - 1)
    ensures FallbackTakes(fields, i, room)
  {
    FirstPlacesStep(fields, i);
    FallbackOne(fields, i, IdsBefore(fields, i), room);
    UpToCons(i, FirstPlaces(fields, i + 1), room);
    RowsAtCons(fields, i, UpTo(FirstPlaces(fields, i + 1), room - 1));
  }

  lemma {:induction false} FallbackAt(fields: seq<Row>, i: nat, room: nat)
    requires i <= |fields| && Unheaded(fields)
    ensures FallbackTakes(fields, i, room)
    decreases |fields| - i
  {
    if i == |fields| || room == 0 {
      FallbackNothing(fields, i, room);
    } else if IdentityOf(fields[i]) in IdsBefore(fields, i) {
      FallbackAt(fields, i + 1, room);
      FallbackSkips(fields, i, room);
    } else {
      FallbackAt(fields, i + 1, room - 1);
      FallbackShows(fields, i, room);
    }
  }

  lemma FallbackOne(fields: seq<Row>, i: nat, seen: set<Identity>, room: nat)
    requires i < |fields| && room > 0 && Unheaded(fields)
    ensures Fallback(fields[i..], seen, room) ==
              if IdentityOf(fields[i]) in seen then Fallback(fields[i + 1..], seen, room)
              else [fields[i]] + Fallback(fields[i + 1..], seen + {IdentityOf(fields[i])}, room - 1)
  {
    FallbackStep(fields, i, seen, room, []);
    assert fields[i] in fields;
  }

  lemma {:induction false} NoneCurated(fields: seq<Row>, keys: seq<string>)
    requires forall key <- keys :: FirstMatch(fields, key).None?
    ensures Curated(fields, keys) == []
  {
    if keys != [] {
      assert keys[0] in keys;
      NoneCurated(fields, keys[1..]);
    }
  }

  /** Without a curated row the summary is the first four rows that repeat no identity, in their order. */
  lemma FallbackIs(fields: seq<Row>)
    requires Unheaded(fields) && forall key <- EffectiveKeys(fields) :: FirstMatch(fields, key).None?
    ensures Summary(fields) == RowsAt(fields, UpTo(FirstPlaces(fields, 0), 4))
  {
    NoneCurated(fields, EffectiveKeys(fields));
    assert fields[0..] == fields && IdsBefore(fields, 0) == {};
    FallbackAt(fields, 0, FALLBACK_ROWS);
  }

  lemma {:induction false} DetailsAt(fields: seq<Row>, ids: set<Identity>, i: nat)
    requires i <= |fields|
    ensures Details(fields[i..], ids - IdsBefore(fields, i)) == RowsAt(fields, KeptPlaces(fields, ids, i))
    decreases |fields| - i
  {
    if i < |fields| {
      var id := IdentityOf(fields[i]);
      assert fields[i..][1..] == fields[i + 1..];
      assert ids - IdsBefore(fields, i + 1) == (ids - IdsBefore(fields, i)) - {id};
      DetailsAt(fields, ids, i + 1);
      if id !in ids - IdsBefore(fields, i) {
        assert (ids - IdsBefore(fields, i)) - {id} == ids - IdsBefore(fields, i);
      }
    }
  }

  /** The details are the delivered rows in their order, without the first row of each summarised identity. */
  lemma DetailsAre(fields: seq<Row>)
    ensures PanelDetails(fields) == RowsAt(fields, KeptPlaces(fields, SummaryIds(fields), 0))
  {
    assert fields[0..] == fields && SummaryIds(fields) - IdsBefore(fields, 0) == SummaryIds(fields);
    DetailsAt(fields, SummaryIds(fields), 0);
  }

  // ---- The whole panel ----

  /** `rebuildIdentityModel`, from the flattened fields on. */
  method RebuildIdentityModel(fields: seq<Row>, orderOf: string -> seq<string>, headingOf: string -> string)
    returns (summary: seq<Row>, details: seq<Row>)
    ensures summary == Summary(fields)
    ensures exists ordered ::
              Ordered(PanelDetails(fields), ordered, orderOf) && details == AllHeaded(ordered, headingOf)
  {
    summary := CurateIdentitySummary(fields);
    var unordered := CurateIdentityDetails(fields, summary);
    var ordered := ApplyFieldOrder(unordered, orderOf);
    details := ApplyGroupHeadings(ordered, headingOf);
  }

  lemma DetailsOnScreen(fields: seq<Row>, ordered: seq<Row>, orderOf: string -> seq<string>,
                        headingOf: string -> string)
    requires Unheaded(fields) && Ordered(PanelDetails(fields), ordered, orderOf)
    ensures multiset(Plain(AllHeaded(ordered, headingOf))) == multiset(PanelDetails(fields))
  {
    OrderedPermutes(PanelDetails(fields), ordered, orderOf);
    HeadingsConserve(ordered, headingOf);
    DetailsDrawn(fields, SummaryIds(fields));
    forall i | 0 <= i < |ordered|
      ensures ordered[i].heading == None
    {
      assert ordered[i] in multiset(PanelDetails(fields));
    }
    assert Plain(ordered) == ordered;
  }

  /** From the wire to the screen: the expanded list stands in contiguous groups, each headed on its first row, and
      with the summary it shows every row exactly once, if and only if the text of each curated key comes first. */
  lemma PanelShowsEveryRowOnce(fields: seq<Row>, ordered: seq<Row>, orderOf: string -> seq<string>,
                               headingOf: string -> string)
    requires Unheaded(fields) && Ordered(PanelDetails(fields), ordered, orderOf)
    ensures var details := AllHeaded(ordered, headingOf);
            && (multiset(fields) == multiset(Summary(fields)) + multiset(Plain(details)) <==> TextComesFirst(fields))
            && Contiguous(details) && HeadedRight(details, headingOf)
  {
    RowsConservedIff(fields);
    DetailsOnScreen(fields, ordered, orderOf, headingOf);
    HeadingsPromise(ordered, headingOf);
  }

  lemma {:induction false} DetailsDrawn(fields: seq<Row>, ids: set<Identity>)
    ensures forall row <- Details(fields, ids) :: row in fields
  {
    if fields != [] {
      DetailsDrawn(fields[1..], if IdentityOf(fields[0]) in ids then ids - {IdentityOf(fields[0])} else ids);
    }
  }
}
