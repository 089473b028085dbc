/**
 * The `/select` endpoint: project every record of `data` onto the names in
 * `fields`.
 *
 * `Selector` builds one projected record in a fresh dictionary, adding the
 * requested names one by one; `Project` maps the selector over the records.
 * `ProjectRecord` is the value `Selector` computes, stated as a function so
 * that `Project` and the lemmas can use it.
 */
module Select {
  import opened Json
  import opened Dictionaries

  /** Why a projection fails: a requested name the dictionary already holds. */
  datatype SelectError = DuplicateKey(key: string)

  datatype Result<T> = Ok(value: T) | Err(error: SelectError)

  /** The members `(f, record[f])` for each `f` in `fields`, in that order. */
  function Projected(record: Record, fields: seq<string>): Record {
    seq(|fields|, j requires 0 <= j < |fields| => (fields[j], Get(record, fields[j])))
  }

  /**
   * The position of the first name in `fields` that repeats an earlier one:
   * the position at which adding the names in order first finds the name
   * already present.
   */
  function FirstRepeat(fields: seq<string>): (i: nat)
    requires !Distinct(fields)
    ensures i < |fields| && fields[i] in fields[..i] && Distinct(fields[..i])
    decreases |fields|
  {
    var n := |fields| - 1;
    if Distinct(fields[..n]) then n
    else
      var i := FirstRepeat(fields[..n]);
      assert fields[..n][..i] == fields[..i];
      i
  }

  /** The first repeat is the only position that repeats a name of a distinct prefix. */
  lemma FirstRepeatUnique(fields: seq<string>, i: nat)
    requires i < |fields| && fields[i] in fields[..i] && Distinct(fields[..i])
    ensures !Distinct(fields) && FirstRepeat(fields) == i
  {
  }

  /**
   * What the selector yields for one record: the requested names in the
   * order given, each with the record's value for it or null when the record
   * has no such member; or the error raised by the first repeated name.
   */
  function ProjectRecord(record: Record, fields: seq<string>): (res: Result<Record>)
    ensures res.Ok? <==> Distinct(fields)
    ensures res.Ok? ==> Keys(res.value) == fields && UniqueKeys(res.value)
    ensures res.Ok? ==> forall j :: 0 <= j < |fields| ==>
      (fields[j] in Keys(record) ==> (fields[j], res.value[j].1) in record) &&
      (fields[j] !in Keys(record) ==> res.value[j].1 == Null)
    ensures res.Err? ==> exists k, i :: 0 <= k < i < |fields| && fields[k] == fields[i] == res.error.key
  {
    if Distinct(fields) then Ok(Projected(record, fields))
    else Err(DuplicateKey(fields[FirstRepeat(fields)]))
  }

  /**
   * The selector lambda: a new dictionary receives `(field, element[field])`
   * for each requested field in turn. The first `Add` that meets a name the
   * dictionary already holds aborts the selector.
   */
  method Selector(element: Record, fields: seq<string>) returns (res: Result<Record>)
    ensures res == ProjectRecord(element, fields)
  {
    var projection := new Dictionary();
    var i := 0;
    while i < |fields|
      invariant 0 <= i <= |fields|
      invariant projection.Valid()
      invariant Distinct(fields[..i])
      invariant projection.entries == Projected(element, fields[..i])
    {
      assert Keys(projection.entries) == fields[..i];
      var added := projection.Add(fields[i], Get(element, fields[i]));
      if !added {
        FirstRepeatUnique(fields, i);
        return Err(DuplicateKey(fields[i]));
      }
      assert fields[..i + 1] == fields[..i] + [fields[i]];
      i := i + 1;
    }
    assert fields[..i] == fields;
    return Ok(projection.entries);
  }

  /**
   * `data.Select(selector)`, enumerated in order: the projected records in
   * the order of `data`, or the first error a selector call raises.
   */
  function Project(data: seq<Record>, fields: seq<string>): (res: Result<seq<Record>>)
    ensures res.Ok? ==> |res.value| == |data|
  {
    if data == [] then Ok([])
    else
      match ProjectRecord(data[0], fields)
      case Err(e) => Err(e)
      case Ok(p) =>
        match Project(data[1..], fields)
        case Err(e) => Err(e)
        case Ok(ps) => Ok([p] + ps)
  }

  /** An empty `data` gives an empty result, whatever `fields` holds. */
  lemma EmptyDataGivesEmptyResult(fields: seq<string>)
    ensures Project([], fields) == Ok([])
  {
  }

  /**
   * The projection succeeds exactly when there is no record to project or
   * the requested names are distinct; otherwise it fails on the first
   * repeated name.
   */
  lemma {:induction false} ProjectSucceedsIff(data: seq<Record>, fields: seq<string>)
    ensures Project(data, fields).Ok? <==> (data == [] || Distinct(fields))
    ensures Project(data, fields).Err? ==>
      !Distinct(fields) && Project(data, fields).error == DuplicateKey(fields[FirstRepeat(fields)])
  {
    if data != [] && Distinct(fields) {
      ProjectSucceedsIff(data[1..], fields);
    }
  }

  /**
   * On success there is one projected record per input record, in the same
   * order: the i-th result is the projection of the i-th record.
   */
  lemma {:induction false} ProjectKeepsOrder(data: seq<Record>, fields: seq<string>)
    requires Project(data, fields).Ok?
    ensures |Project(data, fields).value| == |data|
    ensures forall i :: 0 <= i < |data| ==>
      Project(data, fields).value[i] == ProjectRecord(data[i], fields).value
  {
    if data != [] {
      ProjectKeepsOrder(data[1..], fields);
      var ps := Project(data[1..], fields).value;
      assert Project(data, fields).value == [ProjectRecord(data[0], fields).value] + ps;
    }
  }

  /**
   * With distinct names, each projected record lists exactly the requested
   * names in the order given; a present member keeps its value unchanged and
   * a missing one becomes null.
   */
  lemma ProjectedRecordShape(data: seq<Record>, fields: seq<string>, i: nat, j: nat)
    requires Distinct(fields) && i < |data| && j < |fields| && UniqueKeys(data[i])
    ensures Project(data, fields).Ok? && |Project(data, fields).value| == |data|
    ensures Keys(Project(data, fields).value[i]) == fields
    ensures forall m :: 0 <= m < |data[i]| && data[i][m].0 == fields[j] ==>
      Project(data, fields).value[i][j] == data[i][m]
    ensures fields[j] !in Keys(data[i]) ==> Project(data, fields).value[i][j] == (fields[j], Null)
  {
    ProjectSucceedsIff(data, fields);
    ProjectKeepsOrder(data, fields);
    var p := Project(data, fields).value[i];
    assert p == Projected(data[i], fields);
    forall m | 0 <= m < |data[i]| && data[i][m].0 == fields[j]
      ensures p[j] == data[i][m]
    {
      GetFindsMember(data[i], m);
    }
  }

  /** No requested names: every record projects to the empty object. */
  lemma NoFieldsGiveEmptyRecords(data: seq<Record>)
    ensures Project(data, []).Ok?
    ensures |Project(data, []).value| == |data|
    ensures forall i :: 0 <= i < |data| ==> Project(data, []).value[i] == []
  {
    ProjectSucceedsIff(data, []);
    ProjectKeepsOrder(data, []);
  }
}
