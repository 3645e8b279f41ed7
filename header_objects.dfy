/** Plain JavaScript objects with string values, as the page builds them by
    assignment (`obj[key] = value`): the header object sent through the
    proxy and saved with a request, and the object read back when a saved
    request is loaded.

    Such an object is modelled as the list of its own properties in
    insertion order: assigning to a present key overwrites it where it
    stands, assigning to a new key appends it. */
module HeaderObjects {
  import opened Common

  /** The own properties of an object, in enumeration order. */
  type Object = seq<KeyValue>

  /** No key is listed twice. */
  predicate UniqueKeys(o: Object) {
    forall i, j :: 0 <= i < j < |o| ==> o[i].k != o[j].k
  }

  /** `Object.keys(o)`. */
  function Keys(o: Object): (ks: seq<string>)
    ensures |ks| == |o|
    ensures forall i :: 0 <= i < |o| ==> ks[i] == o[i].k
  {
    if o == [] then [] else [o[0].k] + Keys(o[1..])
  }

  /** `o[key]`, `None` standing for `undefined`. */
  function Lookup(o: Object, key: string): Option<string> {
    if o == [] then None
    else if o[0].k == key then Some(o[0].v)
    else Lookup(o[1..], key)
  }

  /** `o[key]` is `undefined` exactly for keys the object does not list. */
  lemma {:induction false} LookupAbsent(o: Object, key: string)
    ensures Lookup(o, key).None? <==> key !in Keys(o)
  {
    if o != [] {
      LookupAbsent(o[1..], key);
      assert Keys(o) == [o[0].k] + Keys(o[1..]);
    }
  }

  /** `o[key] = value`. */
  function Assign(o: Object, key: string, value: string): (r: Object)
    ensures Lookup(r, key) == Some(value)
    ensures forall other :: other != key ==> Lookup(r, other) == Lookup(o, other)
  {
    if o == [] then [KeyValue(key, value)]
    else if o[0].k == key then [KeyValue(key, value)] + o[1..]
    else [o[0]] + Assign(o[1..], key, value)
  }

  /** A present key keeps its place; a new key goes last. */
  lemma {:induction false} AssignKeys(o: Object, key: string, value: string)
    ensures Keys(Assign(o, key, value)) == if key in Keys(o) then Keys(o) else Keys(o) + [key]
  {
    var r := Assign(o, key, value);
    if o == [] {
      assert Keys(r) == [key];
    } else if o[0].k == key {
      assert Keys(o)[0] == key;
      assert Keys(r) == Keys(o);
    } else {
      AssignKeys(o[1..], key, value);
      assert r == [o[0]] + Assign(o[1..], key, value);
      assert Keys(r) == [o[0].k] + Keys(r[1..]);
      assert Keys(o) == [o[0].k] + Keys(o[1..]);
      assert key in Keys(o) <==> key in Keys(o[1..]);
    }
  }

  /** Assignment never lists a key twice. */
  lemma AssignUnique(o: Object, key: string, value: string)
    requires UniqueKeys(o)
    ensures UniqueKeys(Assign(o, key, value))
  {
    var r := Assign(o, key, value);
    var ks := Keys(o);
    AssignKeys(o, key, value);
    forall i, j | 0 <= i < j < |r| ensures r[i].k != r[j].k {
      assert Keys(r)[i] == r[i].k && Keys(r)[j] == r[j].k;
      if key !in ks && j == |ks| {
        assert Keys(r)[i] == ks[i];
        assert ks[i] in ks;
      } else {
        assert ks[i] == o[i].k && ks[j] == o[j].k;
      }
    }
  }

  // ---------------------------------------------------------------------------
  // Header rows → object
  // ---------------------------------------------------------------------------

  /** Assigning every row whose key is not blank, in row order. */
  function AssignRows(o: Object, rows: seq<KeyValue>): Object
    decreases |rows|
  {
    if rows == [] then o
    else AssignRows(if HasKey(rows[0]) then Assign(o, rows[0].k, rows[0].v) else o, rows[1..])
  }

  /** The object built from the editor rows. */
  function FromRows(rows: seq<KeyValue>): Object {
    AssignRows([], rows)
  }

  /** Reference definition: the value of the last non-blank row with that key. */
  function LastValue(rows: seq<KeyValue>, key: string): (r: Option<string>)
    ensures r.None? <==> forall i :: 0 <= i < |rows| ==> !(rows[i].k == key && HasKey(rows[i]))
  {
    if rows == [] then None
    else
      var last := rows[|rows| - 1];
      if last.k == key && HasKey(last) then Some(last.v)
      else
        var r := LastValue(rows[..|rows| - 1], key);
        assert forall i :: 0 <= i < |rows| - 1 ==> rows[..|rows| - 1][i] == rows[i];
        r
  }

  /** Building the header object in a loop, one assignment per non-blank row:
      the `forEach` of `sendRequest` and the `for` loop of the save handler. */
  method BuildHeaderObject(rows: seq<KeyValue>) returns (obj: Object)
    ensures obj == FromRows(rows)
  {
    obj := [];
    for i := 0 to |rows|
      invariant AssignRows(obj, rows[i..]) == FromRows(rows)
    {
      assert rows[i..][1..] == rows[i + 1..];
      if !IsBlank(rows[i].k) {
        obj := Assign(obj, rows[i].k, rows[i].v);
      }
    }
    assert rows[|rows|..] == [];
  }

  lemma {:induction false} AssignRowsSnoc(o: Object, rows: seq<KeyValue>, row: KeyValue)
    ensures AssignRows(o, rows + [row])
         == (var p := AssignRows(o, rows); if HasKey(row) then Assign(p, row.k, row.v) else p)
    decreases |rows|
  {
    if rows == [] {
      assert (rows + [row])[1..] == [];
    } else {
      assert (rows + [row])[1..] == rows[1..] + [row];
      AssignRowsSnoc(if HasKey(rows[0]) then Assign(o, rows[0].k, rows[0].v) else o, rows[1..], row);
    }
  }

  /** Later rows overwrite earlier ones: a key maps to the value of the last
      non-blank row that carries it, and is absent when no such row exists. */
  lemma {:induction false} FromRowsLookup(rows: seq<KeyValue>, key: string)
    ensures Lookup(FromRows(rows), key) == LastValue(rows, key)
    decreases |rows|
  {
    if rows != [] {
      var init := rows[..|rows| - 1];
      var last := rows[|rows| - 1];
      assert rows == init + [last];
      AssignRowsSnoc([], init, last);
      FromRowsLookup(init, key);
    }
  }

  /** The object's keys are the distinct non-blank row keys, each listed once,
      in order of first appearance. */
  lemma {:induction false} FromRowsKeys(rows: seq<KeyValue>)
    ensures UniqueKeys(FromRows(rows))
    ensures forall key :: key in Keys(FromRows(rows)) <==>
      exists i :: 0 <= i < |rows| && rows[i].k == key && HasKey(rows[i])
    decreases |rows|
  {
    if rows != [] {
      var init := rows[..|rows| - 1];
      var last := rows[|rows| - 1];
      assert rows == init + [last];
      AssignRowsSnoc([], init, last);
      FromRowsKeys(init);
      if HasKey(last) {
        AssignUnique(FromRows(init), last.k, last.v);
      }
      forall key ensures key in Keys(FromRows(rows)) <==>
        exists i :: 0 <= i < |rows| && rows[i].k == key && HasKey(rows[i])
      {
        FromRowsLookup(rows, key);
        LookupAbsent(FromRows(rows), key);
      }
    }
  }

  /** A row editor example: the later of two `X-A` rows wins, the blank row is
      dropped, and the key keeps the place of its first row. */
  lemma FromRowsExample()
    ensures FromRows([KeyValue("X-A", "1"), KeyValue(" ", "z"), KeyValue("B", "2"), KeyValue("X-A", "3")])
         == [KeyValue("X-A", "3"), KeyValue("B", "2")]
  {
    assert IsJsSpace(' ');
    assert !IsBlank("X-A") by { assert !IsJsSpace("X-A"[0]); }
    assert !IsBlank("B") by { assert !IsJsSpace("B"[0]); }
    var rows := [KeyValue("X-A", "1"), KeyValue(" ", "z"), KeyValue("B", "2"), KeyValue("X-A", "3")];
    assert rows[1..] == [KeyValue(" ", "z"), KeyValue("B", "2"), KeyValue("X-A", "3")];
    assert rows[1..][1..] == [KeyValue("B", "2"), KeyValue("X-A", "3")];
    assert rows[1..][1..][1..] == [KeyValue("X-A", "3")];
    assert "X-A" != "B";
    var o1 := Assign([], "X-A", "1");
    assert o1 == [KeyValue("X-A", "1")];
    var o3 := Assign(o1, "B", "2");
    assert o3 == [KeyValue("X-A", "1"), KeyValue("B", "2")];
    assert Assign(o3, "X-A", "3") == [KeyValue("X-A", "3"), KeyValue("B", "2")];
    assert FromRows(rows) == AssignRows(o1, rows[1..]);
    assert AssignRows(o1, rows[1..]) == AssignRows(o1, rows[1..][1..]);
    assert AssignRows(o1, rows[1..][1..]) == AssignRows(o3, rows[1..][1..][1..]);
  }

  // ---------------------------------------------------------------------------
  // Object → header rows (loading a saved request)
  // ---------------------------------------------------------------------------

  /** The single row the editor shows when a loaded object has no entries. */
  const DefaultRows: seq<KeyValue> := [KeyValue("Accept", "application/json")]

  /** `Object.entries(o).map(([k, v]) => ({k, v}))`, or the default row when
      that is empty. */
  function ToRows(o: Object): (rows: seq<KeyValue>)
    ensures o == [] ==> rows == DefaultRows
    ensures o != [] ==> rows == o
  {
    if |o| > 0 then o else DefaultRows
  }

  /** Saving then loading a header editor whose rows all have distinct,
      non-blank keys gives back the same rows, in the same order. */
  lemma RowsRoundTrip(rows: seq<KeyValue>)
    requires rows != []
    requires forall i :: 0 <= i < |rows| ==> HasKey(rows[i])
    requires UniqueKeys(rows)
    ensures ToRows(FromRows(rows)) == rows
  {
    assert [] + rows == rows;
    AssignedDistinct([], rows);
  }

  lemma {:induction false} AssignedDistinct(o: Object, rows: seq<KeyValue>)
    requires forall i :: 0 <= i < |rows| ==> HasKey(rows[i])
    requires UniqueKeys(o + rows)
    ensures AssignRows(o, rows) == o + rows
    decreases |rows|
  {
    if rows != [] {
      var all := o + rows;
      forall i | 0 <= i < |o| ensures o[i].k != rows[0].k {
        assert all[i] == o[i] && all[|o|] == rows[0];
      }
      AppendFresh(o, rows[0]);
      assert (o + [rows[0]]) + rows[1..] == all;
      AssignedDistinct(o + [rows[0]], rows[1..]);
    }
  }

  lemma {:induction false} AppendFresh(o: Object, row: KeyValue)
    requires forall i :: 0 <= i < |o| ==> o[i].k != row.k
    ensures Assign(o, row.k, row.v) == o + [row]
  {
    if o != [] {
      assert forall i :: 0 <= i < |o| - 1 ==> o[1..][i] == o[i + 1];
      AppendFresh(o[1..], row);
      assert [o[0]] + (o[1..] + [row]) == o + [row];
    }
  }
}
