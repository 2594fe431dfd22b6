# A verified model of the malkova document store

`db.js` treats a directory of JSON files as a keyed document store. Most
operations read one or two files (`set` and `remove` also rewrite one), and
most append an audit line to `log.txt`; the exceptions are listed below. This project models that module in
Dafny and proves what its operations do to the directory and to the log.

- `text.dfy` (module `Text`): the JavaScript string built-ins the store
  relies on: decimal rendering of a number, `includes`, `indexOf`,
  `slice(0, end)` and `Array.prototype.join`.
- `keysets.dfy` (module `KeySets`): the key lists of documents. It has the
  loops of `union`, `intersect` and `difference` as methods. Each method is
  proved equal to a reference definition (`UnionOf`, `IntersectOf`,
  `DifferenceOf`), and lemmas state the set-theoretic properties of those
  definitions.
- `json.dfy` (module `Json`): property values and their JavaScript
  truthiness. A parsed object (`Obj`) keeps its keys in insertion order.
  `Put` is `o[k] = v` and `Drop` is `o[k] = undefined` followed by
  `JSON.stringify`.
- `store.dfy` (module `DocumentStore`): class `Store`. It holds the
  directory as a map from file name to `File` (a parsed document, or `Raw`
  text that does not parse as an object). It also holds the log as a
  sequence of lines. Its methods are the exported operations of `db.js`.
  The module also defines the name filter, base names and merged object of
  `mergeData`, with lemmas about them.
- `scenarios.dfy` (module `Scenarios`): sequences of calls, and what the
  store's contracts let a caller conclude about them.

The timestamp from `Date.now()` is the parameter `now` of each logging
operation. The directory listing that `mergeData` reads with `readdir` is the
parameter `listing`. Console output is not observable in the model.

The model follows the code where it departs from what the module's comments
(db.js:6-16) or a first reading would suggest:
- `createFile` on a file that exists but is empty does nothing at all: it
  neither logs nor writes. A denial is logged only when the file has
  contents (`data[0]` truthy).
- `remove` really deletes the key: the property is set to `undefined`, and
  `JSON.stringify` leaves it out when the file is rewritten.
- `deleteFile` writes nothing to the log. `mergeData` appends its own line
  (`MergeData Performed -> ...`) without the `Message:` prefix and without a
  timestamp. A `mergeData` that fails logs nothing.
- `get` reports a key whose value is falsy (`null`, `false`, `0`, `""`)
  exactly like an absent key. The model keeps this behaviour (`Truthy`).
  `Scenarios.SetFalsyThenGet` shows its consequence.

## Model

| member | source | states |
|---|---|---|
| `Text.NatText` | db.js:19 | the decimal text of a number is a non-empty digit string without a leading zero that reads back (`DigitsValue`) as the number itself |
| `Text.NatTextInjective` | db.js:19 | different numbers have different decimal texts |
| `Text.IntText` | db.js:19 | `${n}` for an integer: a leading minus sign exactly when it is negative, then a digit string without a leading zero that reads back as its magnitude |
| `Text.ContainsAt` | db.js:146 | `includes(sub)` holds exactly when `sub` occurs at some position of the string |
| `Text.IndexOf` | db.js:153 | `indexOf(c)` is -1 exactly when `c` does not occur; otherwise it is a position holding `c` with no earlier `c` |
| `Text.SliceTo` | db.js:153 | `slice(0, end)` gives a prefix; its length is `end` clipped to the string, or counts back from the end when `end` is negative |
| `Text.Join` | db.js:188 | `${array}` joins with commas: empty for no items, the item itself for one, and otherwise starts with the first item and a comma |
| `Text.JoinFromBack` | db.js:188 | a join of two or more items is the join of all but the last, a comma, then the last item, so every item appears in order in the logged list |
| `KeySets.Without` | db.js:246-255 | keeps exactly the elements of `s` absent from `t`; keeps `s` free of duplicates |
| `KeySets.Within` | db.js:209-215 | keeps exactly the elements of `s` present in `t`; keeps `s` free of duplicates |
| `KeySets.UnionSpec` | db.js:178-187 | the union starts with A's keys in order, has no duplicates, and contains a key exactly when A or B has it |
| `KeySets.IntersectSpec` | db.js:208-215 | the intersection has no duplicates and contains a key exactly when both A and B have it |
| `KeySets.DifferenceSpec` | db.js:236-255 | the difference has no duplicates and contains a key exactly when one document has it and the other does not |
| `KeySets.IntersectDifferencePartitionUnion` | db.js:171-261 | intersection and difference are disjoint, and together they cover exactly the keys of the union |
| `KeySets.WithoutAgrees` | db.js:246-255 | filtering against the shared keys (`similarArr`) equals filtering against the other document's keys |
| `KeySets.Union` | db.js:178-187 | the two push loops of `union` produce A's keys followed by B's keys not in A, in B's order |
| `KeySets.Intersect` | db.js:208-215 | the nested loops of `intersect` produce A's keys that B has, in A's order, each once |
| `KeySets.Difference` | db.js:236-255 | the three loops of `difference` produce A's keys not in B followed by B's keys not in A |
| `KeySets.ExampleKeys` | db.js:171-261 | on `{firstname, email}` and `{firstname, username}`: union, intersection and difference are `[firstname, email, username]`, `[firstname]` and `[email, username]` |
| `Json.FalsyValues` | db.js:39 | `!value` holds for exactly four values: `null`, `false`, `0` and `""`; every other value (an empty array or object too) is truthy |
| `Json.Show` | db.js:40 | `${value}` in a log line: a string appears without quotes (its JSON text is that text quoted), `null`, booleans and numbers appear as their JSON text |
| `Json.Serialize` | db.js:57 | `JSON.stringify` of a plain value is never empty, and a string's text is enclosed in double quotes |
| `Json.Obj.Stringify` | db.js:156 | `JSON.stringify` of an object is enclosed in braces, and is `{}` for an object with no keys |
| `Json.Members` | db.js:57 | a serialised object has no more `"key":value` members than keys (`MembersInOrder` gives exactly one per key, in order) |
| `Json.Obj.Put` | db.js:56 | `o[k] = v` maps `k` to `v` and leaves every other property and value unchanged; a new key goes last and an existing one keeps its place; keys stay unique |
| `Json.Obj.Drop` | db.js:74-75 | after `o[k] = undefined` and serialisation, `k` is absent, the other properties keep their values and their order, and keys stay unique |
| `Json.MembersInOrder` | db.js:57 | `JSON.stringify` of an object whose keys all have values writes exactly one `"key":value` member per key, in key order |
| `Json.EmptyObj` | db.js:113 | `{}` is a well-formed object with no keys |
| `DocumentStore.ReadDoc` | db.js:36-37 | `readFile` then `JSON.parse`: `NoEntry(file)` exactly when the file is absent, `BadJson` exactly when it holds unparsable text, and otherwise the document the file holds |
| `DocumentStore.ReadPair` | db.js:173-176 | both files are read before either is parsed: a missing A is reported first, then a missing B, and only then a parse failure; on success it gives both parsed documents |
| `DocumentStore.Describe` | db.js:42 | `${err}` of a failed read starts with the ENOENT wording and ends with the path between single quotes; a parse failure's text does not start with the ENOENT wording |
| `DocumentStore.LineParts` | db.js:19 | a log line is `Message: `, the message, ` @Timestamp: `, the timestamp's decimal text and one newline; that text reads back as the timestamp |
| `DocumentStore.NonEmpty` | db.js:105 | `data[0]` is truthy: always for a parsed document (its text is never empty), and for raw text exactly when it has a character |
| `DocumentStore.IsDataFile` | db.js:146 | a name is merged exactly when `json` occurs in it at some position and `package` occurs nowhere |
| `DocumentStore.DataFiles` | db.js:145-149 | keeps exactly the listed names that mention `json` and not `package` |
| `DocumentStore.BaseName` | db.js:153 | with a dot: the text before the first dot; without a dot: the name minus its last character |
| `DocumentStore.Merged` | db.js:150-155 | the object built from data files that all parse is a well-formed object (unique keys, order list and values agree) |
| `DocumentStore.MergeKeys` | db.js:153-154 | the merged object has one property for each base name of a data file, and no other |
| `DocumentStore.MergeLastWins` | db.js:154 | a data file with no later namesake supplies the value stored under its base name |
| `DocumentStore.Store.Log` | db.js:18-20 | appends exactly one line `Message: <message> @Timestamp: <now>` and keeps every earlier line |
| `DocumentStore.Store.Get` | db.js:27-44 | no file changes, and exactly one line is logged: the read/parse error, `Error <key> invalid on <file>` for an absent or falsy value, or `Get <key> on <file> -> <value>` |
| `DocumentStore.Store.Set` | db.js:52-63 | on success the file is rewritten with `key` mapped to `value` (see `Put`) and one `Set` line is logged; when the read or parse fails, no file changes and one `Error` line is logged |
| `DocumentStore.Store.Remove` | db.js:70-81 | on success the file is rewritten without `key` (see `Drop`) and one `Remove` line is logged; when the read or parse fails, no file changes and one `Error` line is logged |
| `DocumentStore.Store.DeleteFile` | db.js:88-94 | the file is absent afterwards whether or not it existed; other files and the log are unchanged |
| `DocumentStore.Store.CreateFile` | db.js:101-119 | an absent file is created holding `{}` with one `CreateFile` line; a file with contents is untouched and one `DENIED` line is logged; an empty file is untouched and nothing is logged |
| `DocumentStore.Store.MergeData` | db.js:139-161 | no file changes; if every data file parses, one `MergeData Performed -> <merged JSON>` line is appended; otherwise the log is unchanged |
| `DocumentStore.Store.Union` | db.js:171-192 | no file changes; one line with the union of the two key lists, or with the first read/parse error |
| `DocumentStore.Store.Intersect` | db.js:202-220 | no file changes; one line with the intersection of the two key lists, or with the first read/parse error |
| `DocumentStore.Store.Difference` | db.js:230-261 | no file changes; one line with the symmetric difference of the two key lists, or with the first read/parse error |
| `Scenarios.SetThenGet` | db.js:35-40 | `set` of a truthy value then `get` logs the `Set` line and then a `Get` line showing that value |
| `Scenarios.SetFalsyThenGet` | db.js:39 | `set` of a falsy value stores it, yet the following `get` logs `Error <key> invalid` |
| `Scenarios.RemoveThenGet` | db.js:74 | after `remove`, the key is absent and `get` logs `Error <key> invalid` |
| `Scenarios.CreateTwice` | db.js:105-114 | two `createFile` calls on an absent file leave `{}`, one creation line and one denial |
| `Scenarios.DeleteTwice` | db.js:88-94 | two `deleteFile` calls leave the file absent, other files untouched and the log unchanged |

## Left out

- server.js: the HTTP listener, with its banner and status payload, is I/O plumbing with no store logic.
- Promises, `await` and real file I/O: each call is one atomic step. Races between concurrent calls on the same file are not modelled.
- `JSON.parse` and `JSON.stringify` as text algorithms: a file is either a parsed object or `Raw` text. String escaping in serialised output is not modelled (`Json.Quote`). The wording of a parser `SyntaxError` is a fixed text (`Describe`); the real message names the offending token and position.
- Files whose JSON is valid but not an object (`5`, `"a"`, `[1]`, `null`) are treated like unparsable text, so every operation on them reports a `SyntaxError`. In JavaScript they parse, and:
  - `get` on `null` and `set` or `remove` on `null` throw a `TypeError` from `parsed[key]` (db.js:38, db.js:56, db.js:74). The error line has the same shape as in the model but names that `TypeError` (db.js:42, db.js:61, db.js:79).
  - `get` on a primitive or an array reads a property of it (an array index, or usually `undefined`) and logs a `Get` line or an invalid-key line (db.js:38-40).
  - `set` and `remove` on a primitive or an array rewrite the file with its JSON text and log a `Set` or `Remove` line (db.js:56-59, db.js:74-77). On a primitive the assignment is silently ignored; on an array only an index key survives serialisation.
  - `mergeData` merges such a data file under its base name like any other (db.js:152-154), where the model logs nothing.
  - `union`, `intersect` and `difference` enumerate an array's indices, and a string its character indices (a file holding `"ab"` gives `0,1`); a number, a boolean or `null` enumerates nothing (db.js:179, db.js:209, db.js:238), and log a `Performed` line where the model logs `ERROR:`.
  - `createFile` is unaffected: it only looks at the file's first character.
- Numbers are integers: floating-point values are not modelled. JavaScript numbers are doubles, so an integer beyond 2^53 loses precision and one of 1e21 or more prints as `1e+21`; `Json.Num` holds any integer and `IntText` prints every digit. Arrays and objects nested in a document are opaque (`Json.Nested`), represented by their display text and their JSON text.
- Property names inherited from `Object.prototype` (`toString`, `__proto__`) and JavaScript's enumeration order for integer-like keys: every key is an own property, in insertion order.
- `Date.now()` is a parameter; the model says nothing about timestamps increasing. Console output (db.js:92, db.js:108, db.js:116, db.js:159) is not modelled.
- Read errors other than a missing file (permissions, reading a directory) are not modelled. A name that `readdir` lists but the directory map lacks fails like a missing file. `readdir(__dirname)` and the process's working directory are taken to be the same directory.
- File names are plain names in one directory: `u.json` and `./u.json` are two keys of the directory map, while to the file system they are one file. Subdirectories, absolute names and such aliasing paths are not modelled. In particular `createFile` reads `./<file>` (db.js:103-104) but writes `<file>` (db.js:113). For an absolute name such as `/data/u.json` whose contents exist, the read of `./data/u.json` fails with ENOENT, and the source then overwrites the existing file with `{}` and logs `CreateFile`. The model's guard (`Store.CreateFile`: a file with contents is never overwritten) holds only for plain names. A name inside a directory that does not exist makes the write at db.js:113 reject, so the call ends with no file and no log line, whereas the model creates the file.
- Write failures are not modelled: the model's `writeFile` always succeeds. In the source, a `writeFile` that rejects in `set` or `remove` (db.js:58, db.js:76) is caught; the file stays unchanged and an `Error` line is logged (db.js:61, db.js:79).
- A failure of `log.txt` itself (an append that rejects) is not modelled. `log.txt` is kept apart from the documents, so a call that names `log.txt` as a document is not modelled.
- DocumentStore.Merged: its contract states only that the result is well formed. Its key set and values are stated in `MergeKeys` and `MergeLastWins`.
- When a data file cannot be read or parsed, `mergeData` stops at the first such file and reports it on the console only. The model says only that nothing is logged and no file changes; which file failed is not modelled.
