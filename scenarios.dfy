/**
 * The endpoint's documented request/response pairs, stated on the model.
 */
module SelectScenarios {
  import opened Json
  import opened Select

  const Abdelkrim: Record := [("name", Str("abdelkrim")), ("age", Num("10"))]
  const WithBirthplace: Record := Abdelkrim + [("birthplace", Str("Algeria"))]
  const WithAddress: Record :=
    WithBirthplace + [("address", Obj([("number", Num("1")), ("street", Str("Rue Daoudi"))]))]

  /** No records and no names give `[]`. */
  lemma EmptyRequest()
    ensures Project([], []) == Ok([])
  {
  }

  /** `["name"]` keeps only the name: `[{"name":"abdelkrim"}]`. */
  lemma SingleField()
    ensures Project([Abdelkrim], ["name"]) == Ok([[("name", Str("abdelkrim"))]])
  {
    var fields := ["name"];
    assert Get(Abdelkrim, "name") == Str("abdelkrim");
    ResolveOne(Abdelkrim, fields);
    assert Projected(Abdelkrim, fields) == [("name", Str("abdelkrim"))];
  }

  /** `["name", "age"]` keeps both, in that order, and drops the birthplace. */
  lemma TwoFields()
    ensures Project([WithBirthplace], ["name", "age"])
         == Ok([[("name", Str("abdelkrim")), ("age", Num("10"))]])
  {
    var fields := ["name", "age"];
    assert Get(WithBirthplace, "name") == Str("abdelkrim");
    assert Get(WithBirthplace[1..], "age") == Num("10");
    assert Distinct(fields);
    ResolveOne(WithBirthplace, fields);
    assert Projected(WithBirthplace, fields) == [("name", Str("abdelkrim")), ("age", Num("10"))];
  }

  /** A name the record lacks comes back as null: `[{"gender":null}]`. */
  lemma MissingField()
    ensures Project([WithBirthplace], ["gender"]) == Ok([[("gender", Null)]])
  {
    var fields := ["gender"];
    assert Keys(WithBirthplace) == ["name", "age", "birthplace"];
    ResolveOne(WithBirthplace, fields);
    assert Projected(WithBirthplace, fields) == [("gender", Null)];
  }

  /**
   * "address.number" is not a path: the record has no top-level member of
   * that name, so it projects to null although the nested object has a
   * "number" member.
   */
  lemma DottedNameIsLiteral()
    ensures Project([WithAddress], ["name", "age", "address.number"])
         == Ok([[("name", Str("abdelkrim")), ("age", Num("10")), ("address.number", Null)]])
  {
    var fields := ["name", "age", "address.number"];
    assert Get(WithAddress, "name") == Str("abdelkrim");
    assert Get(WithAddress[1..], "age") == Num("10");
    assert Keys(WithAddress) == ["name", "age", "birthplace", "address"];
    assert Distinct(fields);
    ResolveOne(WithAddress, fields);
    assert Projected(WithAddress, fields)
        == [("name", Str("abdelkrim")), ("age", Num("10")), ("address.number", Null)];
  }

  /** Repeating a name fails on the repeated name as soon as there is a record to project. */
  lemma RepeatedField()
    ensures Project([Abdelkrim], ["name", "age", "name"]) == Err(DuplicateKey("name"))
    ensures Project([], ["name", "name"]) == Ok([])
  {
    var fields := ["name", "age", "name"];
    assert fields[..2] == ["name", "age"];
    FirstRepeatUnique(fields, 2);
    ProjectSucceedsIff([Abdelkrim], fields);
  }

  /** A request for one record with distinct names yields that record's projection. */
  lemma ResolveOne(record: Record, fields: seq<string>)
    requires Distinct(fields)
    ensures Project([record], fields) == Ok([Projected(record, fields)])
  {
    assert [record][1..] == [];
    assert ProjectRecord(record, fields) == Ok(Projected(record, fields));
    assert [Projected(record, fields)] + [] == [Projected(record, fields)];
  }
}
