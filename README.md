# ProductManager, modelled in Dafny

`ProductManager` (index.js) is a small product store over one JSON file. Each
operation reads the whole list from the file. `addProduct`, `updateProductById`
and `deleteProductById` then compute a new list and write the whole list back.
The model keeps that shape with the file abstracted away:

- `js_values.dfy`, module `JsValues`: the JavaScript semantics the store depends
  on. It covers truthiness of strings and numbers, `===`, `==` (including the
  string-to-number conversion when a string meets a number) and `String.prototype.trim`.
- `catalog.dfy`, module `Catalog`: the product record and the update patch (a
  record of optional fields). It also holds the pure computations done on the
  loaded list: the truthiness validation, the `some` code check, id assignment,
  `find`, `findIndex`, the `{...product, ...data}` merge and the `filter` of a
  delete, each with lemmas about it.
- `product_manager.dfy`, module `ProductManagement`: class `ProductManager`.
  Its fields `fileExists` and `fileContents` stand for the backing file.
  `GetProducts` and `GetProductById` are functions that read the fields. The
  three mutators are methods that read the list, compute, and overwrite both
  fields through `WriteFile`.

Behaviour of the code as written, which the model keeps:

- Validation looks at the raw arguments before trimming. A title of blanks
  passes and is stored as `""`. A price or stock of `0` is rejected.
- The id of every product after the first is the previous product's *code*
  followed by `"1"` (`"abc123" + 1` is `"abc1231"`), so ids are strings or
  numbers (`Value`). `NextIdMatchesNoNumber` shows that when the last code
  starts with a letter, the new id is found by no numeric id. `NextIdOfDigitCode`
  shows that when the last code is all digits, the new id is found by the number
  those digits followed by 1 spell (code `"12"` gives id `"121"`, found by 121;
  code `"007"` gives `"0071"`, found by 71).
- Lookup, update and delete find records with `==`. The id guard of an update
  uses `===` and ignores a falsy patch id. A patch `{id: 0}` therefore passes
  the guard, and the merge stores id `0`.
- An update does not check codes. `UpdateMayDuplicateCode` shows two records
  left with one code.
- A delete rewrites the file even when nothing matched. On a missing file it
  creates one holding the empty list.

The code does not keep ids unique, and an update can make two codes equal
(`UpdateMayDuplicateCode`). Lookup, update and delete match ids with `==`, and
failures come back in several shapes: a log line, a marker object, a caught error.

## Model

| member | source | states |
|---|---|---|
| JsValues.LooseEq | index.js:55 | values of one type are `==` exactly when they are `===`; a number and a string are `==` exactly when the string converts to that number (the comparison of index.js:55, 68 and 91) |
| JsValues.LooseEqSymmetric | index.js:55 | `==` on ids gives the same answer in either order |
| JsValues.Trim | index.js:35-39 | the trimmed text is a contiguous part of the input; only white space is cut before and after it; it neither starts nor ends with white space; it is empty exactly when the input is all white space |
| JsValues.TrimUnique | index.js:35-39 | any string cut out of the input as `trim` is described is the one `Trim` returns, so `Trim` matches its reference description |
| JsValues.TrimIdempotent | index.js:30 | trimming an already trimmed code changes nothing, so stored codes compare with `code.trim()` as stored |
| JsValues.DecimalRoundTrip | index.js:55 | reading the decimal rendering of a natural number gives the number back |
| JsValues.NumberStringLooselyEqualsNumber | index.js:55 | a string holding a number's decimal rendering converts to that number and is `==` to it |
| Catalog.AllFieldsTruthy | index.js:28 | validation passes exactly when no text argument is empty and neither price nor stock is zero, judged on the untrimmed arguments |
| Catalog.HasCode | index.js:30 | true exactly when some stored product has the given code |
| Catalog.NextId | index.js:34 | the id is numeric exactly when the list is empty, and then it is 1; otherwise it is a string: the last record's code with the character `1` appended |
| Catalog.NewProduct | index.js:33-41 | the new record has the next id, the trimmed title, description, thumbnail and code (each already in trimmed form), and price and stock as given |
| Catalog.NextIdOfDigitCode | index.js:34 | when the last code is all digits, or empty, the new id is those digits followed by 1 and is `==` to the number they spell (1 for an empty code) |
| Catalog.NextIdMatchesNoNumber | index.js:34 | when the last code starts with a character that cannot begin a number (not white space, a digit, a sign or a decimal point), the next id is `==` to no number |
| Catalog.FindIndex | index.js:68 | -1 exactly when no id is `==` to the argument; otherwise an index whose id matches, with no earlier match |
| Catalog.Find | index.js:55-57 | the not-found marker exactly when no id is `==` to the argument; otherwise a stored product whose id matches |
| Catalog.FindAgreesWithFindIndex | index.js:55-68 | `find` returns the record at the index `findIndex` reports, or the marker when that index is -1 |
| Catalog.ChangesId | index.js:74 | a rejected patch carries an id different from the one asked for; a patch that passes carries no id, the id asked for, or a falsy id; a falsy patch id never rejects |
| Catalog.Merge | index.js:78 | every field present in the patch takes the patch's value; every absent field keeps the product's value |
| Catalog.RemoveById | index.js:91 | never longer than the input; holds exactly the records whose id is not `==` to the argument; is the input itself when nothing matches |
| Catalog.RemoveByIdKeepsOrder | index.js:91 | the surviving records keep their original order |
| Catalog.RemoveByIdDropsOnlyMatches | index.js:91 | the result is shorter than the input by exactly the number of matching records |
| Catalog.RemoveByIdIdempotent | index.js:88-92 | deleting twice by one id gives what deleting once gives |
| Catalog.FindAfterRemove | index.js:55 | after a delete, a lookup by the deleted id finds nothing |
| Catalog.RemoveKeepsCodesDistinct | index.js:91 | a delete keeps stored codes pairwise distinct |
| Catalog.AppendKeepsCodesDistinct | index.js:30-42 | appending a product whose code is not stored yet keeps codes pairwise distinct |
| Catalog.UpdateKeepsCodesDistinct | index.js:78-79 | an update keeps codes distinct when its patch has no code, or a code no other record holds |
| Catalog.UpdateMayDuplicateCode | index.js:78-79 | an update can give a record another record's code, so distinct codes are not preserved in general |
| Catalog.MergeLaws | index.js:78 | an empty patch leaves the product as it was; merging one patch twice equals merging it once |
| Catalog.UpdateIdempotent | index.js:68-79 | repeating an update whose patch has no id, or the id asked for, finds the same record and stores the same merge |
| ProductManagement.ProductManager.constructor | index.js:6-8 | the manager keeps its path and sees the file system's current file |
| ProductManagement.ProductManager.GetProducts | index.js:11-18 | with no backing file the list is empty; otherwise it is the stored list |
| ProductManagement.ProductManager.WriteFile | index.js:43 | after a write the file exists and holds exactly the given list |
| ProductManagement.ProductManager.AddProduct | index.js:25-48 | rejected exactly when some argument is falsy, or when the trimmed code is already stored; a rejection leaves the file untouched; a success appends exactly one record and keeps all earlier ones; the new record has the next id (1 on an empty list), trimmed text and the given price and stock; distinct codes stay distinct |
| ProductManagement.ProductManager.GetProductById | index.js:51-62 | the marker exactly when no stored id is `==` to the argument; otherwise the record at the first matching index; reads only |
| ProductManagement.ProductManager.UpdateProductById | index.js:65-85 | not-found exactly when no id matches; rejected exactly when one matches and the patch carries a truthy id not `===` to the argument; both leave the file untouched; otherwise it returns the merge and replaces only the first matching record, so the length and every other record stay the same |
| ProductManagement.ProductManager.DeleteProductById | index.js:88-96 | the file now exists and holds the filtered list; it never grows; it is unchanged when no id matches |

## Left out

- File I/O (`fs.existsSync`, `readFile`, `writeFile`) and `async`/`await`. The file becomes the fields `fileExists` and `fileContents`. A read is `GetProducts`, a write is `WriteFile`. Suspension and interleaving of concurrent calls are not modelled.
- `JSON.parse` and `JSON.stringify`: the file holds the list of records directly. A corrupt file, and the error object `getProducts` returns for it, are not modelled.
- The `catch` blocks that return a caught error: the only caught error the model has is the one thrown by the id guard of an update. It appears as the `IdChangeRejected` outcome.
- `console.log` in `addProduct`: its two messages are the outcomes `MissingField` and `DuplicateCode`. The JavaScript function returns `undefined` in every case.
- The `test()` driver at the end of index.js: it only calls the five operations.
- Floating-point numbers: `price`, `stock` and numeric ids are integers. NaN, fractions and `-0` are not modelled.
- JsValues.StringToNumber: only optionally signed decimal integers with surrounding white space are read as numbers. Hexadecimal, exponent and fractional forms (`"0x1A"`, `"1e3"`, `"2.0"`) are treated as NaN, so the model's `==` is false where JavaScript's may be true for such strings.
- Arguments of other JavaScript types: text arguments are strings and numbers are integers. A patch carries only the seven product fields, each with its product type. `null`, `undefined`, booleans, objects, extra patch keys and the `TypeError` that `trim` throws on a non-string are not modelled.
- Strings are sequences of Unicode scalar values rather than UTF-16 code units.
