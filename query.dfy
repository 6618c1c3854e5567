/** The query helpers `find` and `filter`: conditions built from a field
    spec and a value spec, and the scans over a sequence of records. */
module Query {
  import opened Values

  /** The field spec: one field name, or a collection of field names. */
  datatype Keys = Single(key: string) | Many(keys: seq<string>)

  /** One positional (field, expected value) pair of a condition. */
  datatype Clause = Clause(key: string, expected: Value)

  /** The two ways a multi-field condition is rejected with `ValueError`. */
  datatype QueryError =
    | ValuesNotIterable   // several keys, but the values are not a collection
    | LengthMismatch      // several keys and values of a different count

  datatype Result<T> = Ok(value: T) | Err(error: QueryError)

  /** A multi-field spec whose values are not a collection of equal length. */
  predicate Malformed(keys: Keys, values: Value) {
    keys.Many? && (!IsCollection(values) || |keys.keys| != |values.items|)
  }

  /** `zip(key_seq, value_seq)` on sequences of equal length. */
  function Zip(ks: seq<string>, vs: seq<Value>): (cs: seq<Clause>)
    requires |ks| == |vs|
    ensures |cs| == |ks|
    ensures forall i :: 0 <= i < |cs| ==> cs[i] == Clause(ks[i], vs[i])
  {
    if ks == [] then [] else [Clause(ks[0], vs[0])] + Zip(ks[1..], vs[1..])
  }

  /** Normalises the field spec and the value spec into positional clauses. */
  function Normalize(keys: Keys, values: Value): (r: Result<seq<Clause>>)
    ensures r.Err? <==> Malformed(keys, values)
    ensures r.Err? ==> r.error == if IsCollection(values) then LengthMismatch else ValuesNotIterable
    ensures keys.Single? ==> r == Ok([Clause(keys.key, values)])
    ensures r.Ok? && keys.Many? ==>
      |r.value| == |keys.keys| &&
      forall i :: 0 <= i < |r.value| ==> r.value[i] == Clause(keys.keys[i], values.items[i])
  {
    match keys
    case Single(k) => Ok([Clause(k, values)])
    case Many(ks) =>
      if !IsCollection(values) then Err(ValuesNotIterable)
      else if |ks| != |values.items| then Err(LengthMismatch)
      else Ok(Zip(ks, values.items))
  }

  /** `all(_match(r.get(k), v) for k, v in clauses)`: a record satisfies
      a condition iff it matches every one of its clauses; in particular
      the empty condition is satisfied by every record. */
  predicate Satisfies(r: Record, cs: seq<Clause>): (b: bool)
    ensures b <==> forall i :: 0 <= i < |cs| ==> Match(Field(r, cs[i].key), cs[i].expected)
  {
    cs == [] ||
      (assert forall i :: 1 <= i < |cs| ==> cs[i] == cs[1..][i - 1];
       Match(Field(r, cs[0].key), cs[0].expected) && Satisfies(r, cs[1..]))
  }

  /** `[r for r in records if all(...)]`: the records satisfying `cs`. */
  function Select(records: seq<Record>, cs: seq<Clause>): (out: seq<Record>)
    ensures |out| <= |records|
  {
    if records == [] then []
    else (if Satisfies(records[0], cs) then [records[0]] else []) + Select(records[1..], cs)
  }

  /** `next((r for r in records if all(...)), default)`. */
  function First(records: seq<Record>, cs: seq<Clause>, default: Value): (v: Value)
    ensures (forall i :: 0 <= i < |records| ==> !Satisfies(records[i], cs)) ==> v == default
    ensures v == default || (v.Dict? && v.entries in records && Satisfies(v.entries, cs))
  {
    if records == [] then default
    else if Satisfies(records[0], cs) then Dict(records[0])
    else First(records[1..], cs, default)
  }

  /** `DataContext.find`: the first record satisfying the condition, or
      `default`; a malformed multi-field condition is an error. */
  function Find(records: seq<Record>, keys: Keys, values: Value, default: Value): (r: Result<Value>)
    ensures r.Err? <==> Malformed(keys, values)
    ensures r.Ok? && records == [] ==> r.value == default
    ensures r.Ok? && r.value != default ==> r.value.Dict? && r.value.entries in records
  {
    match Normalize(keys, values)
    case Err(e) => Err(e)
    case Ok(cs) => Ok(First(records, cs, default))
  }

  /** `DataContext.filter`: every record satisfying the condition, in
      order; a malformed multi-field condition is an error. */
  function Filter(records: seq<Record>, keys: Keys, values: Value): (r: Result<seq<Record>>)
    ensures r.Err? <==> Malformed(keys, values)
    ensures r.Ok? ==> |r.value| <= |records| && forall x :: x in r.value ==> x in records
    ensures r.Ok? && records == [] ==> r.value == []
  {
    match Normalize(keys, values)
    case Err(e) => Err(e)
    case Ok(cs) =>
      SelectMembership(records, cs);
      Ok(Select(records, cs))
  }

  // ---------------------------------------------------------------------
  // The scans against their specification

  /** `idx` lists, in increasing order, exactly the positions of `records`
      whose record satisfies `cs`. */
  ghost predicate MatchPositions(idx: seq<nat>, records: seq<Record>, cs: seq<Clause>) {
    && (forall k :: 0 <= k < |idx| ==> idx[k] < |records|)
    && (forall k, l :: 0 <= k < l < |idx| ==> idx[k] < idx[l])
    && (forall i :: 0 <= i < |records| ==> (Satisfies(records[i], cs) <==> i in idx))
  }

  /** Every position of `rest`, moved one place to the right. */
  ghost function Shift(rest: seq<nat>): seq<nat> {
    seq(|rest|, k requires 0 <= k < |rest| => rest[k] + 1)
  }

  /** The positions of `records[1..]` shifted by one are positions of
      `records`, with the head's own position put in front when the head
      satisfies the condition. */
  lemma {:induction false} MatchPositionsCons(idx: seq<nat>, records: seq<Record>, cs: seq<Clause>)
    requires records != [] && MatchPositions(idx, records[1..], cs)
    ensures MatchPositions(
      if Satisfies(records[0], cs) then [0] + Shift(idx) else Shift(idx), records, cs)
  {
    var shifted := Shift(idx);
    var out := if Satisfies(records[0], cs) then [0] + shifted else shifted;
    assert forall k :: 0 <= k < |out| ==> out[k] < |records|;
    assert 0 !in shifted;
    forall i | 0 < i < |records|
      ensures Satisfies(records[i], cs) <==> i in out
    {
      assert records[i] == records[1..][i - 1];
      if i - 1 in idx {
        var k :| 0 <= k < |idx| && idx[k] == i - 1;
        assert shifted[k] == i;
      }
      if i in shifted {
        var k :| 0 <= k < |shifted| && shifted[k] == i;
        assert idx[k] == i - 1;
      }
    }
  }

  /** The positions of the records satisfying `cs`, in increasing order. */
  ghost function Positions(records: seq<Record>, cs: seq<Clause>): seq<nat> {
    if records == [] then []
    else if Satisfies(records[0], cs) then [0] + Shift(Positions(records[1..], cs))
    else Shift(Positions(records[1..], cs))
  }

  lemma {:induction false} PositionsAreMatchPositions(records: seq<Record>, cs: seq<Clause>)
    ensures MatchPositions(Positions(records, cs), records, cs)
  {
    if records != [] {
      PositionsAreMatchPositions(records[1..], cs);
      MatchPositionsCons(Positions(records[1..], cs), records, cs);
    }
  }

  lemma {:induction false} SelectAtPositions(records: seq<Record>, cs: seq<Clause>)
    ensures |Select(records, cs)| == |Positions(records, cs)|
    ensures forall k :: 0 <= k < |Positions(records, cs)| ==>
      Positions(records, cs)[k] < |records| &&
      Select(records, cs)[k] == records[Positions(records, cs)[k]]
  {
    if records != [] {
      SelectAtPositions(records[1..], cs);
      var rest := Positions(records[1..], cs);
      var tail := Select(records[1..], cs);
      var idx := Positions(records, cs);
      if Satisfies(records[0], cs) {
        assert Select(records, cs) == [records[0]] + tail;
        assert idx == [0] + Shift(rest);
        forall k | 0 < k < |idx| ensures idx[k] < |records| && Select(records, cs)[k] == records[idx[k]] {
          assert idx[k] == Shift(rest)[k - 1] == rest[k - 1] + 1;
          assert records[idx[k]] == records[1..][rest[k - 1]];
        }
      } else {
        assert Select(records, cs) == tail;
        assert idx == Shift(rest);
        forall k | 0 <= k < |idx| ensures idx[k] < |records| && Select(records, cs)[k] == records[idx[k]] {
          assert idx[k] == rest[k] + 1;
          assert records[idx[k]] == records[1..][rest[k]];
        }
      }
    }
  }

  /** `Select` keeps exactly the satisfying records, in their original
      order: it is `records` read at the increasing list of matching
      positions. */
  lemma SelectIsOrderedSubsequence(records: seq<Record>, cs: seq<Clause>)
    returns (idx: seq<nat>)
    ensures MatchPositions(idx, records, cs)
    ensures |Select(records, cs)| == |idx|
    ensures forall k :: 0 <= k < |idx| ==> Select(records, cs)[k] == records[idx[k]]
  {
    idx := Positions(records, cs);
    PositionsAreMatchPositions(records, cs);
    SelectAtPositions(records, cs);
  }

  /** `Select` returns records of the input that satisfy `cs`, and every
      such record of the input is among them. */
  lemma SelectMembership(records: seq<Record>, cs: seq<Clause>)
    ensures forall x :: x in Select(records, cs) ==> x in records && Satisfies(x, cs)
    ensures forall x :: x in records && Satisfies(x, cs) ==> x in Select(records, cs)
  {
    var idx := SelectIsOrderedSubsequence(records, cs);
    var out := Select(records, cs);
    forall x | x in out ensures x in records && Satisfies(x, cs) {
      var k :| 0 <= k < |out| && out[k] == x;
      assert records[idx[k]] == x;
    }
    forall x | x in records && Satisfies(x, cs) ensures x in out {
      var i :| 0 <= i < |records| && records[i] == x;
      var k :| 0 <= k < |idx| && idx[k] == i;
      assert out[k] == x;
    }
  }

  /** One step of the comprehension: the head is kept iff it satisfies
      the condition. */
  lemma SelectCons(x: Record, rest: seq<Record>, cs: seq<Clause>)
    ensures Select([x] + rest, cs) == (if Satisfies(x, cs) then [x] else []) + Select(rest, cs)
  {
    assert ([x] + rest)[0] == x && ([x] + rest)[1..] == rest;
  }

  /** Filtering distributes over concatenation of the input. */
  lemma {:induction false} SelectAppend(a: seq<Record>, b: seq<Record>, cs: seq<Clause>)
    ensures Select(a + b, cs) == Select(a, cs) + Select(b, cs)
  {
    if a == [] {
      assert a + b == b;
    } else {
      SelectAppend(a[1..], b, cs);
      assert a == [a[0]] + a[1..];
      assert a + b == [a[0]] + (a[1..] + b);
      SelectCons(a[0], a[1..], cs);
      SelectCons(a[0], a[1..] + b, cs);
    }
  }

  /** Filtering an already filtered sequence changes nothing. */
  lemma {:induction false} SelectIdempotent(records: seq<Record>, cs: seq<Clause>)
    ensures Select(Select(records, cs), cs) == Select(records, cs)
  {
    if records != [] {
      SelectIdempotent(records[1..], cs);
      var s := Select(records, cs);
      if Satisfies(records[0], cs) {
        assert s == [records[0]] + Select(records[1..], cs);
        assert s[0] == records[0] && s[1..] == Select(records[1..], cs);
      } else {
        assert s == Select(records[1..], cs);
      }
    }
  }

  /** The empty condition is satisfied by every record. */
  lemma {:induction false} SelectEmptyCondition(records: seq<Record>)
    ensures Select(records, []) == records
  {
    if records != [] {
      SelectEmptyCondition(records[1..]);
    }
  }

  /** `First` is the head of `Select`, or `default` when `Select` is empty. */
  lemma {:induction false} FirstIsHeadOfSelect(records: seq<Record>, cs: seq<Clause>, default: Value)
    ensures First(records, cs, default) ==
      if Select(records, cs) == [] then default else Dict(Select(records, cs)[0])
  {
    if records != [] && !Satisfies(records[0], cs) {
      FirstIsHeadOfSelect(records[1..], cs, default);
    }
  }

  /** `First` returns the earliest satisfying record. */
  lemma {:induction false} FirstIsEarliest(records: seq<Record>, cs: seq<Clause>, default: Value, i: nat)
    requires i < |records| && Satisfies(records[i], cs)
    requires forall j :: 0 <= j < i ==> !Satisfies(records[j], cs)
    ensures First(records, cs, default) == Dict(records[i])
  {
    if i > 0 {
      assert !Satisfies(records[0], cs);
      forall j | 0 <= j < i - 1 ensures !Satisfies(records[1..][j], cs) {
        assert records[1..][j] == records[j + 1];
      }
      FirstIsEarliest(records[1..], cs, default, i - 1);
    }
  }

  // ---------------------------------------------------------------------
  // The public operations

  /** `find` and `filter` agree: they fail on the same inputs, and `find`
      returns the first record `filter` returns, or `default`. */
  lemma FindIsHeadOfFilter(records: seq<Record>, keys: Keys, values: Value, default: Value)
    ensures Find(records, keys, values, default) ==
      match Filter(records, keys, values)
      case Err(e) => Err(e)
      case Ok(s) => Ok(if s == [] then default else Dict(s[0]))
  {
    if Normalize(keys, values).Ok? {
      FirstIsHeadOfSelect(records, Normalize(keys, values).value, default);
    }
  }

  /** Errors of `filter` (and so of `find`): several keys with values that
      are not a collection, or of a different count. */
  lemma FilterErrors(records: seq<Record>, ks: seq<string>, values: Value)
    ensures !IsCollection(values) ==> Filter(records, Many(ks), values) == Err(ValuesNotIterable)
    ensures IsCollection(values) && |ks| != |values.items| ==>
      Filter(records, Many(ks), values) == Err(LengthMismatch)
  {
  }

  /** `find` with one key returns the earliest record whose field matches
      the value (when no record matches, `First` gives `default`). */
  lemma FindSingleKey(records: seq<Record>, k: string, value: Value, default: Value, i: nat)
    requires i < |records| && Match(Field(records[i], k), value)
    requires forall j :: 0 <= j < i ==> !Match(Field(records[j], k), value)
    ensures Find(records, Single(k), value, default) == Ok(Dict(records[i]))
  {
    var cs := [Clause(k, value)];
    FirstIsEarliest(records, cs, default, i);
  }

  /** With several keys of matching arity, `filter` keeps exactly the
      input records matching every positional pair (their order is stated
      by `SelectIsOrderedSubsequence`). */
  lemma FilterManyKeys(records: seq<Record>, ks: seq<string>, vs: seq<Value>, x: Record)
    requires |ks| == |vs|
    ensures Filter(records, Many(ks), Coll(vs)).Ok?
    ensures x in Filter(records, Many(ks), Coll(vs)).value <==>
      x in records && forall i :: 0 <= i < |ks| ==> Match(Field(x, ks[i]), vs[i])
  {
    var cs := Normalize(Many(ks), Coll(vs)).value;
    SelectMembership(records, cs);
  }

  /** An empty key collection with an empty value collection matches every
      record. */
  lemma EmptyConditionMatchesAll(records: seq<Record>, default: Value)
    ensures Filter(records, Many([]), Coll([])) == Ok(records)
    ensures Find(records, Many([]), Coll([]), default) ==
      Ok(if records == [] then default else Dict(records[0]))
  {
    SelectEmptyCondition(records);
    FindIsHeadOfFilter(records, Many([]), Coll([]), default);
  }

  /** Filtering the result of `filter` again with the same condition gives
      the same records. */
  lemma FilterIdempotent(records: seq<Record>, keys: Keys, values: Value)
    ensures Filter(records, keys, values).Ok? ==>
      Filter(Filter(records, keys, values).value, keys, values) == Filter(records, keys, values)
  {
    if Normalize(keys, values).Ok? {
      SelectIdempotent(records, Normalize(keys, values).value);
    }
  }
}
