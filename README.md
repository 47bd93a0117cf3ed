# camelizeSchema in Dafny

A model of `camelizeSchema` from `src/camelizeSchema.ts`. The function takes a JSON Schema or OpenAPI document and returns a copy with every object key converted to camelCase. It also converts two kinds of string values:
- the strings of an array stored under the key `required`;
- a string stored under `operationId` or `name`.

The model has three modules:

- `CamelCase` (`camel_case.dfy`) models `toCamelCase` and `shouldTransformStringValue`.
  - The first regular-expression replacement, `/[_-]+(.)/g`, becomes a left-to-right scan that moves one character at a time (`Step`, `ReplaceRuns`). A `Step` is not one regex match: a separator followed by another separator is dropped on its own, and the last separator of a run is dropped together with the character after it, which is upper-cased. The lemmas `RunRewritten` and `RunKeepsLast` prove that these steps add up to the regex's run-by-run matching, including the backtracking of the greedy `[_-]+`: a run that ends at the end of the string, or before a line terminator, keeps its last separator.
  - The second replacement, `/^[A-Z]/`, is `LowerFirst`.
  - A string with no `_` or `-` is returned unchanged, as the early return in the source does.
- `Schema` (`schema.dfy`) models the walker.
  - JSON values are the `Json` datatype. An object is a sequence of key/value pairs in insertion order.
  - `Put` models `result[k] = v`: an existing key keeps its position and takes the new value, and a new key is appended.
  - `Camelize` is the specification of the whole transformation. `CamelizeFields` is the object loop after `n` entries.
  - `CamelizeSchema` is the walker as written. Its array branch, `CamelizeArray`, maps the elements in a `for` loop, and its object branch, `CamelizeObject`, fills a fresh dictionary in a `for` loop. Both call the walker again on nested values, and each method is proved equal to its specification function.
- `SchemaProperties` (`schema_properties.dfy`) holds the properties of the walker:
  - where each output entry comes from;
  - collisions and last-write-wins;
  - `required` names renamed like the keys of the sibling `properties`;
  - key order when nothing collides;
  - arrays and `required`;
  - string values;
  - preservation of well-formedness (unique keys throughout the tree);
  - behaviour on a second pass.

Three points where the code differs from its own documentation or from a natural reading of it:

- The doc comment of `toCamelCase` (line 124) says `API_KEY` becomes `apiKey`. The code yields `aPIKEY`: only the first character is lowered, and the rest of each word keeps its case. The model follows the code (`CamelCase.UpperSnakeExample`).
- A trailing separator run is not removed. `a__` becomes `a_`, and `a_` stays as it is (`CamelCase.TrailingSeparatorExamples`).
- The transformation is often described as idempotent, but it is not for every input. The renaming tests the original key, and a key can be renamed into a role key (`required`, `operationId` or `name`). For example, `{"-name": "user_name"}` becomes `{"name": "user_name"}`, and a second pass gives `{"name": "userName"}` (`SchemaProperties.NotIdempotent`). Idempotence holds when no key is renamed into a role key it did not already have (`SchemaProperties.CamelizeIdempotent`). `toCamelCase` itself is idempotent (`CamelCase.ToCamelCaseIdempotent`).

## Model

| member | source | states |
|---|---|---|
| CamelCase.ToUpper | src/camelizeSchema.ts:134 | `char.toUpperCase()` on ASCII: a lower-case letter becomes the capital at the same place in the alphabet, which `ToLower` turns back into the letter; every other character, including separators and line terminators, is unchanged |
| CamelCase.ToLower | src/camelizeSchema.ts:135 | `char.toLowerCase()` on ASCII: a capital becomes the lower-case letter at the same place in the alphabet; any other character is unchanged |
| CamelCase.CaseRoundTrip | src/camelizeSchema.ts:134-135 | lower-casing a capital and upper-casing it again gives the capital back, and the other way round |
| CamelCase.Step | src/camelizeSchema.ts:134 | one step of the scan, one character at a time: it consumes at least one character and never emits more than it consumes (a run of separators takes one step per separator; `RunRewritten` and `RunKeepsLast` give the effect of a whole regex match) |
| CamelCase.ReplaceRuns | src/camelizeSchema.ts:134 | the global replacement never lengthens the string |
| CamelCase.LowerFirst | src/camelizeSchema.ts:135 | the first character becomes its `ToLower`, so the result never starts with an ASCII capital; every later character is kept; a string not starting with a capital is unchanged |
| CamelCase.ToCamelCase | src/camelizeSchema.ts:127-136 | a string without `_`/`-` is returned unchanged; the result is never longer; no separator that the pattern could still match is left behind; when a separator was present, the result does not start with an ASCII capital |
| CamelCase.ShouldTransformStringValue | src/camelizeSchema.ts:99-105 | true exactly for `operationId` and `name` |
| CamelCase.ReplaceRunsNoSeparator | src/camelizeSchema.ts:129-134 | the replacement leaves a string without separators unchanged |
| CamelCase.StepPrefix | src/camelizeSchema.ts:134 | a match attempt only looks at the text up to the first non-separator after the run |
| CamelCase.ReplaceRunsAppend | src/camelizeSchema.ts:134 | the global replacement distributes over a split point that is not inside a separator run |
| CamelCase.RunRewritten | src/camelizeSchema.ts:134 | a separator run of any length, followed by a character `.` matches, is deleted and that character upper-cased |
| CamelCase.RunKeepsLast | src/camelizeSchema.ts:134 | a separator run at the end of the string or before a line terminator shrinks to its last separator |
| CamelCase.ReplaceRunsSettled | src/camelizeSchema.ts:134 | after the replacement, every separator left is alone and stands before the end or a line terminator; a first character that is not a separator is kept |
| CamelCase.LowerFirstSettled | src/camelizeSchema.ts:135 | lowering the first character does not create a new match for the pattern |
| CamelCase.SettledFixpoint | src/camelizeSchema.ts:134 | the replacement leaves its own output unchanged |
| CamelCase.ToCamelCaseIdempotent | src/camelizeSchema.ts:127-136 | converting an already converted string changes nothing |
| CamelCase.WordCopied | src/camelizeSchema.ts:134 | a prefix without separators is copied verbatim |
| CamelCase.WordThenRun | src/camelizeSchema.ts:134 | word, separator run, character: the word is kept, the run goes, the character is upper-cased |
| CamelCase.SingleSeparator | src/camelizeSchema.ts:134 | a string with one separator before a matchable character: the separator is removed and that character upper-cased, the rest is kept |
| CamelCase.ReplaceRunsJoined | src/camelizeSchema.ts:134 | words joined by separator runs come out as the first word followed by the others capitalised |
| CamelCase.JoinedHasSeparator | src/camelizeSchema.ts:129 | a name made of several words holds a separator, so the early return does not apply |
| CamelCase.JoinedWordsCamelCase | src/camelizeSchema.ts:119-122 | snake_case and kebab-case names with any number of words, and runs of any length between them, become camelCase: runs removed, later words capitalised, a leading ASCII capital lowered |
| CamelCase.NoSeparatorExamples | src/camelizeSchema.ts:123 | `userName`, `Ab`, `$schema` and `application/json` are returned unchanged |
| CamelCase.SnakeCaseExample | src/camelizeSchema.ts:119 | `user_name` becomes `userName` |
| CamelCase.SnakeCaseAgeExample | src/camelizeSchema.test.ts:11 | `user_age` becomes `userAge` |
| CamelCase.KebabCaseExample | src/camelizeSchema.ts:120 | `user-age` becomes `userAge` |
| CamelCase.UpperSnakeExample | src/camelizeSchema.ts:124 | `API_KEY` becomes `aPIKEY`, not the documented `apiKey` |
| CamelCase.LeadingCapitalExample | src/camelizeSchema.ts:133-135 | with a separator present, a leading capital is lowered: `A_b` becomes `aB` |
| CamelCase.LeadingSeparatorExample | src/camelizeSchema.ts:133-135 | `-name` becomes `name` |
| CamelCase.PathTemplateExample | src/camelizeSchema.test.ts:540 | the path key `/users/{user_id}` becomes `/users/{userId}` |
| CamelCase.TrailingSeparatorExamples | src/camelizeSchema.ts:134 | `a__` becomes `a_`, and `a_` is unchanged |
| Schema.Lookup | src/camelizeSchema.ts:54-57 | a key has a value exactly when it is a key of the dictionary |
| Schema.Put | src/camelizeSchema.ts:57-76 | `result[key] = value`: the keys become the old keys plus `key`; `key` now maps to `value`; every other key is unchanged; keys stay unique; the size grows only for a new key, which is appended; an existing key is overwritten where it stands, every other entry keeping its position; no other entry appears |
| Schema.Camelize | src/camelizeSchema.ts:42-81 | the kind of value is preserved; null, booleans, numbers and strings are returned unchanged; an array keeps its length; an object comes back with unique keys and no more entries, so `{}` and `[]` are returned as they are |
| Schema.CamelizeElement | src/camelizeSchema.ts:48-50 | an element that is not object-typed is kept |
| Schema.RenameRequired | src/camelizeSchema.ts:62-64 | same length; exactly the string elements are converted with `toCamelCase`; every other element is copied without recursion |
| Schema.TransformValue | src/camelizeSchema.ts:59-77 | arrays stay arrays and objects stay objects; a string changes only under `operationId` or `name`; null, booleans and numbers (such as `required: true`) are copied |
| Schema.CamelizeFields | src/camelizeSchema.ts:54-78 | after `n` entries the result dictionary has unique keys and at most `n` of them |
| Schema.CamelizeSchema | src/camelizeSchema.ts:42-81 | the walker returns `Camelize` of its input |
| Schema.CamelizeArray | src/camelizeSchema.ts:47-51 | the `map` over an array keeps its length, and every element is the walker's result on it when object-typed and the element itself otherwise |
| Schema.CamelizeObject | src/camelizeSchema.ts:54-80 | the loop over `Object.entries(schema)` returns the dictionary `CamelizeFields` describes |
| Schema.StoreEntry | src/camelizeSchema.ts:57-77 | one iteration stores the transformed value under the renamed key |
| Schema.TransformEntry | src/camelizeSchema.ts:59-77 | the if-chain on the value computes `TransformValue` |
| Schema.KeysAt | src/camelizeSchema.ts:54-57 | a key is in the dictionary exactly when some entry has it |
| SchemaProperties.UniqueKeysDistinct | src/camelizeSchema.ts:54-57 | with unique keys, two positions never share a key |
| SchemaProperties.AssignedEntries | src/camelizeSchema.ts:54-78 | every entry of a dictionary built by assignments was assigned |
| SchemaProperties.AssignedKeys | src/camelizeSchema.ts:54-78 | every assigned key is present |
| SchemaProperties.LastAssignmentWins | src/camelizeSchema.ts:54-78 | a key holds the value of its last assignment |
| SchemaProperties.AssignDistinct | src/camelizeSchema.ts:54-78 | assigning distinct keys appends every entry in order |
| SchemaProperties.UniqueKeysAreDistinct | src/camelizeSchema.ts:54-57 | a dictionary with unique keys has distinct keys at distinct positions |
| SchemaProperties.Renamed | src/camelizeSchema.ts:56-77 | the per-entry renaming keeps the number of entries |
| SchemaProperties.LoopAssignsRenamed | src/camelizeSchema.ts:54-78 | the loop performs, in input order, the assignments of the renamed keys and transformed values |
| SchemaProperties.ObjectEntries | src/camelizeSchema.ts:56-57 | every output entry is the renamed key and transformed value of some input entry |
| SchemaProperties.ObjectKeys | src/camelizeSchema.ts:56-57 | the `toCamelCase` image of every input key is an output key |
| SchemaProperties.ObjectLastWriteWins | src/camelizeSchema.ts:56-77 | when several keys rename to the same key, the value comes from the last of them |
| SchemaProperties.RequiredMatchesProperties | src/camelizeSchema.ts:59-71 | when neither entry is overwritten by a later key with the same image, the output's `required` is the renamed list and its `properties` the camelized object, and every listed name that is a property comes out as a key of the output's `properties` |
| SchemaProperties.ObjectCollisionFree | src/camelizeSchema.ts:54-80 | when no two keys rename to the same key, the output has as many entries as the input, in input order, each renamed and transformed |
| SchemaProperties.ArrayMapped | src/camelizeSchema.ts:47-51 | an array keeps its length; object-typed elements (null, arrays, objects) are camelized, other elements are kept identical |
| SchemaProperties.StringValues | src/camelizeSchema.ts:72-76 | a string value is converted exactly when its original key is `operationId` or `name`; `$ref` targets, descriptions and the like are copied |
| SchemaProperties.ArrayValues | src/camelizeSchema.ts:59-69 | an array under the original key `required` has only its strings renamed; any other array is mapped like a top-level array |
| SchemaProperties.CamelizeWellFormed | src/camelizeSchema.ts:42-81 | a tree whose objects all have unique keys is turned into such a tree |
| SchemaProperties.TransformValueWellFormed | src/camelizeSchema.ts:59-77 | the value stored for an entry of a well-formed tree is well-formed |
| SchemaProperties.RoleKeysSettled | src/camelizeSchema.ts:99-105 | `required`, `operationId` and `name` are not changed by `toCamelCase` |
| SchemaProperties.RenameRequiredIdempotent | src/camelizeSchema.ts:62-64 | renaming the strings of a `required` array twice renames them once |
| SchemaProperties.CamelizeIdempotent | src/camelizeSchema.ts:42-81 | when no key is renamed into a role key it did not have, a second pass changes nothing |
| SchemaProperties.TransformValueIdempotent | src/camelizeSchema.ts:59-77 | under that hypothesis, a stored value is unchanged when stored again under its renamed key |
| SchemaProperties.NotIdempotent | src/camelizeSchema.ts:57-74 | `{"-name": "user_name"}` becomes `{"name": "user_name"}` and then `{"name": "userName"}` on a second pass |
| SchemaProperties.SnakeKeyExample | src/camelizeSchema.test.ts:999-1003 | `{ user_name: "string" }` becomes `{ userName: "string" }` |
| SchemaProperties.RequiredExample | src/camelizeSchema.test.ts:14-24 | `required: ["user_name", "user_age"]` becomes `required: ["userName", "userAge"]` |

## Left out

- Upper- and lower-casing are modelled on ASCII letters only. JavaScript's full Unicode case mapping (for example `'ß'.toUpperCase() == "SS"`) is not modelled.
- Strings are sequences of characters. JavaScript strings are sequences of UTF-16 code units, so a character outside the Basic Multilingual Plane counts as one character here but as two code units there.
- Object key order follows insertion order. `Object.entries` lists integer-like keys first, in numeric order; that is not modelled.
- The `__proto__` setter quirk of JavaScript objects is not modelled.
- `undefined` is not distinguished from `null`: there is a single `Null`.
- Numbers are opaque values. The source never inspects them.
- Cyclic inputs and non-JSON values (dates, functions) are not modelled; an inductive datatype cannot express them.
- `src/delay.ts`, `src/add.ts`, `src/delay.spec.ts` and `tsup.config.ts` are not part of this model. They are a timer, a floating-point addition, a timing test and build configuration.
- Schema.TransformEntry and Schema.StoreEntry: the source computes one loop iteration inline; the model splits it into these two methods so that each proof stays small. They compute the same thing. `TransformEntry` is the statement form of the if-chain, and `TransformValue` is the function that specifies it.
- Concrete conversions with two or more separators (such as `user_full_name`) are covered by `CamelCase.JoinedWordsCamelCase` for all inputs, not as separate literal cases.
