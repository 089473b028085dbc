# Select projection

A model of the `/select` endpoint of the LINQ-operations web API. The request
carries `data`, a list of JSON objects, and `fields`, a list of member names.
The response is one new object per input object, in input order. Each new
object holds exactly the requested names, in the order requested. A name's
value is the input object's value for that name, or JSON null when the object
lacks it.

- `json.dfy` (module `Json`): JSON values (`Json`) and objects (`Record`, the
  members in document order). It also holds the object indexer `Get`, which
  yields null for a missing name.
- `dictionary.dfy` (module `Dictionaries`): the `Dictionary<string, dynamic>`
  the handler fills. It is a class whose `entries` field lists the members in
  insertion order, which is the order the serialized response shows. `Add`
  refuses a name that is already present.
- `select.dfy` (module `Select`): the selector lambda as the imperative method
  `Selector`, proved equal to the function `ProjectRecord`. Also the map over
  all records (`Project`, a function), and the lemmas about both.
- `scenarios.dfy` (module `SelectScenarios`): the endpoint's test requests,
  stated as lemmas about `Project`.

Repeated names in `fields` make `Dictionary.Add` throw. The model makes this an
error, `DuplicateKey`, that carries the first repeated name. The selector runs
only when there is a record to project, so an empty `data` succeeds even with
repeated names. A map update would keep the last repeated value; the code
does not do that, and the model follows the code.

## Model

| member | source | states |
|---|---|---|
| `Json.Get` | Operations/Select/Select.Api/Program.cs:28 | the indexer yields a member of the object with the requested name, or null exactly when the object has no member of that name |
| `Json.GetFindsMember` | Operations/Select/Select.Api/Program.cs:28 | in an object with unique names, the indexer returns the value stored under each name |
| `Dictionaries.Dictionary.constructor` | Operations/Select/Select.Api/Program.cs:25 | a new dictionary is empty and has unique names |
| `Dictionaries.Dictionary.Add` | Operations/Select/Select.Api/Program.cs:28 | adding a new name appends the member at the end; adding a name already present changes nothing and reports failure; names stay unique |
| `Select.FirstRepeat` | Operations/Select/Select.Api/Program.cs:26-28 | the position where adding the names in order first meets a name already added: that name occurs earlier, and the names before it are distinct |
| `Select.FirstRepeatUnique` | Operations/Select/Select.Api/Program.cs:26-28 | a position that repeats a name of a distinct prefix is the first repeat |
| `Select.ProjectRecord` | Operations/Select/Select.Api/Program.cs:23-32 | succeeds exactly when the names are distinct; then the names are exactly `fields` in order, each present name keeps the record's value and each missing one is null; otherwise the error names a field that occurs twice |
| `Select.Selector` | Operations/Select/Select.Api/Program.cs:23-32 | the loop that adds `(field, element[field])` to a fresh dictionary yields `ProjectRecord`, failing on the first repeated name |
| `Select.Project` | Operations/Select/Select.Api/Program.cs:34 | on success there is one output record per input record; its other guarantees are stated by `ProjectSucceedsIff` (when it fails and with which name), `ProjectKeepsOrder` (output i is the projection of record i) and `ProjectedRecordShape` (names, copied values and nulls of each output record) |
| `Select.ProjectSucceedsIff` | Operations/Select/Select.Api/Program.cs:26-34 | the whole projection succeeds if and only if `data` is empty or the names are distinct; a failure names the first repeated field |
| `Select.ProjectKeepsOrder` | Operations/Select/Select.Api/Program.cs:34 | on success the output has as many records as `data`, and output i is the projection of record i |
| `Select.EmptyDataGivesEmptyResult` | Operations/Select/Select.Api.Tests/SelectEndpointTests.cs:21-32 | an empty `data` gives an empty output, whatever `fields` is |
| `Select.ProjectedRecordShape` | Operations/Select/Select.Api/Program.cs:25-30 | with distinct names, each output record's names are exactly `fields` in order; a present member is copied unchanged; a missing one becomes null |
| `Select.NoFieldsGiveEmptyRecords` | Operations/Select/Select.Api/Program.cs:25-31 | with no names, every output record is empty and the output is as long as `data` |
| `SelectScenarios.EmptyRequest` | Operations/Select/Select.Api.Tests/SelectEndpointTests.cs:21-32 | no records and no names give `[]` |
| `SelectScenarios.SingleField` | Operations/Select/Select.Api.Tests/SelectEndpointTests.cs:35-48 | `["name"]` on `{"name","age"}` gives `[{"name":"abdelkrim"}]` |
| `SelectScenarios.TwoFields` | Operations/Select/Select.Api.Tests/SelectEndpointTests.cs:50-63 | `["name","age"]` gives both members in order and drops `birthplace` |
| `SelectScenarios.MissingField` | Operations/Select/Select.Api.Tests/SelectEndpointTests.cs:65-78 | `["gender"]` gives `[{"gender":null}]` |
| `SelectScenarios.DottedNameIsLiteral` | Operations/Select/Select.Api.Tests/SelectEndpointTests.cs:82-95 | `"address.number"` is one literal name and projects to null, not to the nested `number`, which is why that test is skipped |
| `SelectScenarios.RepeatedField` | Operations/Select/Select.Api/Program.cs:26-28 | `["name","age","name"]` fails on `"name"` for one record, and succeeds with `[]` for no records |
| `SelectScenarios.ResolveOne` | Operations/Select/Select.Api/Program.cs:34 | one record with distinct names yields a one-element output holding its projection |

## Left out

- Web host startup, service registration, Swagger, HTTPS redirection and route mapping (Program.cs:3-19, 39-42): framework setup with no effect on the result.
- Decoding the request body into `SelectInput` and serializing the response: library code. `data` and `fields` are taken as already decoded, and the dictionary's serialized member order is taken to be its insertion order.
- Elements of `data` that are not objects (an array, a scalar or null): the model types every element as an object. Such an element throws only when a field is requested, because the indexer runs inside the loop over `fields` (Program.cs:26-28). With `"fields": []` the program gives an empty object for it, for example `{"data":[1,null],"fields":[]}` gives `[{},{}]`. The model cannot express that request.
- A missing `fields`: the handler's own loop over `fields` fails, but only when `data` is non-empty; with `"data": []` the result is `[]`. The model takes `fields` as a list and cannot express its absence. A missing `data` makes `Select` throw; this is not modelled either.
- A null entry in `fields`: the binding accepts it, and the indexer or `Add` then throws for it. The model's names are strings and cannot be null.
- Objects with a repeated member name: the model's `Get` takes the first member of that name. The deserializer either rejects such an object or keeps one member by its own rule, depending on its version, and that handling is not modelled. The lemmas that state copied values (`GetFindsMember`, `ProjectedRecordShape`) require unique names.
- Case-insensitive member lookup, which depends on deserializer options: names are compared exactly.
- Deferred evaluation of `Select`: the model computes the result eagerly. A failing selector call surfaces as the error of the whole result. The model does not capture that the library raises it while the response is being written.
- HTTP status codes: success and `DuplicateKey` are model results. The status code the framework gives an unhandled exception is not modelled.
- JSON numbers are kept as their literal text and never interpreted; floating point is not modelled.
