/** A client of the store and the query helpers, following the usage
    sample in the class documentation: reset the context, cache a record
    collection under a key, then query it with `find` and `filter`. */
module Usage {
  import opened Values
  import opened Query
  import opened Store

  /** Reset, store `dataA` under "data_A", read it back and query it for
      records whose "column_A" is "hoge". The store ends up holding only
      that entry, and the two queries agree with each other. */
  method DocumentedSample(ctx: DataContext<seq<Record>>, dataA: seq<Record>)
    returns (record: Result<Value>, records: Result<seq<Record>>)
    modifies ctx
    ensures ctx.data == map["data_A" := dataA]
    ensures record == Find(dataA, Many(["column_A"]), Coll([Str("hoge")]), None)
    ensures records == Filter(dataA, Many(["column_A"]), Coll([Str("hoge")]))
    ensures record.Ok? && records.Ok?
    ensures record.value == if records.value == [] then None else Dict(records.value[0])
  {
    ctx.Deinit();
    ctx.Set("data_A", dataA);
    var column, value := Many(["column_A"]), Coll([Str("hoge")]);
    var stored := ctx.Get("data_A", []);
    record := Find(stored, column, value, None);
    stored := ctx.Get("data_A", []);
    records := Filter(stored, column, value);
    FindIsHeadOfFilter(dataA, column, value, None);
  }

  /** Single-key find: the record whose "column_A" is "hoge", and the
      default when no record holds the value. */
  lemma SingleKeyFindExample()
    ensures
      var hoge, fuga := map["column_A" := Str("hoge")], map["column_A" := Str("fuga")];
      && Find([hoge, fuga], Single("column_A"), Str("hoge"), None) == Ok(Dict(hoge))
      && Find([hoge, fuga], Single("column_A"), Str("nope"), None) == Ok(None)
  {
    var fuga := map["column_A" := Str("fuga")];
    assert Field(fuga, "column_A") == Str("fuga");
  }

  /** Membership filter: a list condition keeps the records whose field is
      in the list, in their original order. */
  lemma MembershipFilterExample()
    ensures
      var a1, a2, a3 := map["a" := Int(1)], map["a" := Int(2)], map["a" := Int(3)];
      Filter([a1, a2, a3], Single("a"), Coll([Int(1), Int(3)])) == Ok([a1, a3])
  {
    var a1, a2, a3 := map["a" := Int(1)], map["a" := Int(2)], map["a" := Int(3)];
    var member := [Clause("a", Coll([Int(1), Int(3)]))];
    assert Field(a2, "a") == Int(2);
    assert Select([a3], member) == [a3];
    assert [a2, a3][1..] == [a3];
    assert Select([a2, a3], member) == [a3];
    assert [a1, a2, a3][1..] == [a2, a3];
    assert Select([a1, a2, a3], member) == [a1, a3];
  }

  /** Two-key find picks the record matching both fields; two keys with
      one value is an arity error. */
  lemma MultiKeyExample()
    ensures
      var x, y := map["a" := Int(1), "b" := Str("x")], map["a" := Int(1), "b" := Str("y")];
      && Find([x, y], Many(["a", "b"]), Coll([Int(1), Str("y")]), None) == Ok(Dict(y))
      && Filter([x, y], Many(["a", "b"]), Coll([Int(1)])) == Err(LengthMismatch)
  {
    var x, y := map["a" := Int(1), "b" := Str("x")], map["a" := Int(1), "b" := Str("y")];
    var both := Normalize(Many(["a", "b"]), Coll([Int(1), Str("y")])).value;
    assert both == [Clause("a", Int(1)), Clause("b", Str("y"))];
    assert Field(x, "b") == Str("x") && !Satisfies(x, both);
    assert Field(y, "a") == Int(1) && Field(y, "b") == Str("y");
    assert both[1..] == [Clause("b", Str("y"))] && Satisfies(y, both);
    assert [x, y][1..] == [y];
    assert First([x, y], both, None) == First([y], both, None) == Dict(y);
  }
}
