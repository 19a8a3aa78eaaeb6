# Token registry validator, modelled and verified in Dafny

`scripts/validate.mjs` checks the token registry `registry.json` before it is
published. It parses the file and then applies a fixed sequence of checks. The
first violation stops the run with a message. When every check passes, it
reports how many tokens the registry holds.

The checks, in order:

- **Document shape.** The document must be a truthy object, and its `tokens`
  must be an array.
- **Fields of each record.** Each record of `tokens`, by index, must be an
  object with:
  - a non-empty string `symbol` and a non-empty string `name`;
  - an integer `decimals` between 0 and 18;
  - a string `mint_authority` of the form `nova1` followed by ten or more
    digits or lower-case letters.
- **URLs.** A truthy `logo` or `uri` must be a string that starts with
  `https://`, in any letter case.
- **Unique symbols.** The symbol must not occur in any earlier record. A `seen`
  set collects the symbols read so far.
- **Allowed keys.** Every key of the record must be one of `symbol`, `name`,
  `decimals`, `mint_authority`, `logo`, `uri`, `extensions` or `chain`.
- **Order.** After every record has passed, a stably sorted copy of `tokens` is
  compared with the original, index by index. The comparison is by symbol and
  ignores case. The first index where the two symbols differ is reported.

The project has six modules:

- `Json` (json.dfy): parsed JSON values, with the JavaScript operations the
  script applies to them. These are property access (the last binding of a
  repeated key wins), `Object.keys`, truthiness and `typeof`.
- `Text` (text.dfy): the two regular expressions as predicates, and the
  case-insensitive comparator. The comparator is proved to be a total preorder.
- `Sorting` (sorting.dfy): the stable sort of the order check. It is proved to
  return a sorted permutation, to keep tied elements in their input order,
  and to leave an already sorted sequence as it is. It is also proved to be
  the only sort with those properties.
- `Rules` (rules.dfy): the verdict as functions. `Verdict` is the specification
  of the whole script, and `RegistryValid` is the declarative description of an
  accepted registry.
- `Validator` (validator.dfy): the script itself, as methods with the source's
  loops:
  - the index loop over the records, with the `seen` set;
  - inside it, the loop over `["logo", "uri"]` and the loop over
    `Object.keys`;
  - the index loop against the sorted copy.

  Each method is proved equal to its function in `Rules`.
- `Properties` (properties.dfy): what the script promises, proved about
  `Verdict`, plus a few concrete registries worked through.

A verdict is `Accepted(count)` or `Rejected(failure)`. A failure records the
check that failed and the context its message prints: an index, a symbol or a
key.

## Model

| member | source | states |
|---|---|---|
| Validator.Validate | scripts/validate.mjs:13-59 | The script's verdict is `Rules.Verdict(doc)`: document shape, then the record loop, then the order loop, stopping at the first failure. |
| Validator.CheckRecords | scripts/validate.mjs:20-49 | The index loop with its growing `seen` set reports exactly `RecordsFault`, the failure of the lowest-index failing record. |
| Validator.CheckRecord | scripts/validate.mjs:25-48 | Gives the failure of one record, in the order field checks, duplicate check, allow-list. On success the new `seen` set is the old one plus the record's symbol. |
| Validator.CheckFields | scripts/validate.mjs:25-38 | The field tests of one record, in source order, give exactly `FieldFault`. |
| Validator.CheckUrls | scripts/validate.mjs:34-38 | The loop over `logo`, `uri` reports the first truthy value that is not an https string, and nothing otherwise. |
| Validator.FindUnknownField | scripts/validate.mjs:45-48 | The loop over `Object.keys` returns the first key outside the allow-list, or none. |
| Validator.CheckOrder | scripts/validate.mjs:52-57 | The loop against the sorted copy reports the first index whose symbol differs from the sorted copy's, with that record's symbol. |
| Rules.Verdict | scripts/validate.mjs:13-59 | On acceptance there is a `tokens` array, and the count is its length. |
| Rules.FieldFault | scripts/validate.mjs:25-38 | A field failure is always a failure of one record, never a shape or order failure. |
| Rules.FieldFaultNone | scripts/validate.mjs:25-38 | The field checks find nothing exactly when the record satisfies the conjunction `FieldsValid`. |
| Rules.FirstDisallowedMeaning | scripts/validate.mjs:46-47 | No key is reported exactly when all keys are allowed. A reported key is disallowed, and every key before it is allowed. |
| Rules.RecordFault | scripts/validate.mjs:25-48 | A record's failure is always one of the per-record kinds. |
| Rules.RecordFaultMeaning | scripts/validate.mjs:25-48 | There is no failure exactly when the record is valid and its symbol is new. A duplicate or unknown field is reported only after all field checks passed. A duplicate's symbol is in `seen`. An unknown field is a disallowed key of the record, and is reported only when the symbol is new. |
| Rules.RecordsFault | scripts/validate.mjs:20-49 | The record loop raises only per-record failures. |
| Rules.FirstMismatch | scripts/validate.mjs:53-56 | No index is found exactly when the sequences are equal. A found index differs, and the prefix before it agrees. |
| Rules.FirstMismatchAt | scripts/validate.mjs:53-56 | The first differing index, after an agreeing prefix, is the one reported. |
| Rules.AllValidSnoc | scripts/validate.mjs:20-49 | All records are valid exactly when those before the last are valid and the last is valid. |
| Rules.DistinctSnoc | scripts/validate.mjs:41-42 | The symbols are distinct exactly when those before the last are distinct and the last is not in their `seen` set. |
| Rules.VerdictOfRecordsFault | scripts/validate.mjs:20-49 | A failure of the record loop is the script's verdict. |
| Rules.VerdictAfterRecords | scripts/validate.mjs:52-59 | When the record loop passes, the order check decides: its failure, or acceptance with the token count. |
| Rules.VerdictOutOfOrder | scripts/validate.mjs:52-57 | An order failure is reported only when the record loop passed, and it is the order check's failure. |
| Rules.RecordsFaultStep | scripts/validate.mjs:20-21 | After a clean prefix, the next record's failure is computed against the `seen` set of that prefix. |
| Rules.RecordsFaultExtends | scripts/validate.mjs:20-49 | A failure found in a prefix stops the loop: it is the failure of the whole list. |
| Rules.SymbolSetSnoc | scripts/validate.mjs:42 | Reading one more record adds exactly its symbol to `seen`. |
| Json.LookupMeaning | scripts/validate.mjs:26-35 | Property access finds nothing exactly when the key is absent. Otherwise it returns the value of the key's last binding. |
| Json.LookupUnique | scripts/validate.mjs:26-35 | A key bound once reads back its value. |
| Json.FirstOccurrencesMeaning | scripts/validate.mjs:46 | Keeping each key's first occurrence keeps exactly the same keys, and lists each of them once. |
| Json.KeysMeaning | scripts/validate.mjs:46 | `Object.keys` of an object lists exactly the keys that property access finds, and lists each of them once. |
| Text.FoldIdempotent | scripts/validate.mjs:52 | Folding is idempotent: a folded string has no upper-case letter left. |
| Text.LexCompare | scripts/validate.mjs:52 | The comparison yields -1, 0 or 1. |
| Text.LexCompareZero | scripts/validate.mjs:52 | Code-point comparison is 0 exactly for equal strings. |
| Text.LexCompareFlip | scripts/validate.mjs:52 | Swapping the operands negates the code-point comparison. |
| Text.LexCompareTransitive | scripts/validate.mjs:52 | "Not after" under code-point comparison is transitive. |
| Text.CompareFlip | scripts/validate.mjs:52 | The comparator is antisymmetric: swapping the operands negates it. |
| Text.CompareTransitive | scripts/validate.mjs:52 | The comparator's "not after" is transitive, so it is a total preorder. |
| Text.CompareZeroIffSameFold | scripts/validate.mjs:52 | Two symbols tie exactly when they agree up to letter case (base sensitivity). |
| Text.CompareByFirst | scripts/validate.mjs:52 | Symbols whose first letters differ after folding compare as those letters do. |
| Text.NovaAddressParts | scripts/validate.mjs:17 | `nova1` followed by `tail` is an address exactly when `tail` has at least ten characters, all from `[0-9a-z]`. |
| Text.NovaAddressNeedsPrefix | scripts/validate.mjs:17 | Every address starts with `nova1`. |
| Text.HttpsIgnoresCase | scripts/validate.mjs:16 | The scheme test gives the same answer for strings that differ only in letter case. |
| Sorting.Insert | scripts/validate.mjs:52 | Insertion adds exactly one element. |
| Sorting.SortBy | scripts/validate.mjs:52 | The sorted copy has as many records as the original. |
| Sorting.InsertPermutation | scripts/validate.mjs:52 | Insertion adds `x` to the multiset of elements. |
| Sorting.SortByPermutation | scripts/validate.mjs:52 | The sorted copy is a permutation of the records. |
| Sorting.InsertElements | scripts/validate.mjs:52 | Every element after insertion is `x` or an element from before. |
| Sorting.InsertSorted | scripts/validate.mjs:52 | Insertion into a sorted sequence keeps it sorted. |
| Sorting.SortBySorted | scripts/validate.mjs:52 | The sorted copy is sorted under the comparator. |
| Sorting.TiesWithElements | scripts/validate.mjs:52 | An element of a tie class is an element of the sequence that ties with the class. |
| Sorting.TiesWithAppend | scripts/validate.mjs:52 | Appending an element extends the tie class it belongs to, and no other class. |
| Sorting.InsertTies | scripts/validate.mjs:52 | Insertion places the new element after every element it ties with. |
| Sorting.SortByStable | scripts/validate.mjs:52 | The sort is stable: the elements tied with any given element keep their input order. |
| Sorting.SortedTiesUnique | scripts/validate.mjs:52 | Two sorted sequences that have the same tie classes in the same order are equal. |
| Sorting.StableSortUnique | scripts/validate.mjs:52 | Any sorted arrangement that keeps each tie class in input order is `SortBy`'s result, so every stable sort gives the same copy. |
| Sorting.SortByIdentity | scripts/validate.mjs:52 | A sequence already sorted, ties included, is its own stably sorted copy. |
| Properties.ObjectLikeValues | scripts/validate.mjs:13 | `v && typeof v === "object"` holds exactly for objects and arrays. |
| Properties.ShapeRejectedFirst | scripts/validate.mjs:13-14 | A falsy or non-object document is refused as not an object. An object-like document without a `tokens` array, such as an array, is refused for that, before any record is read. |
| Properties.UrlRule | scripts/validate.mjs:34-38 | A `logo`/`uri` value passes exactly when it is absent, `null`, `false`, `0` or `""`, or is a string starting with `https://` in any case. |
| Properties.RecordsFaultNone | scripts/validate.mjs:20-49 | The record loop passes exactly when every record is valid and the symbols are pairwise distinct. |
| Properties.RecordsFaultLocated | scripts/validate.mjs:20-49 | A failure of the loop is the failure of some record all of whose predecessors pass. |
| Properties.OrderFaultNone | scripts/validate.mjs:52-57 | The order check passes exactly when the symbols are non-decreasing under the comparator. |
| Properties.AcceptedIffValid | scripts/validate.mjs:13-59 | The registry is accepted exactly when it satisfies `RegistryValid`: a `tokens` array whose records are all valid, with distinct symbols, sorted. |
| Properties.RecordValidFacts | scripts/validate.mjs:25-47 | A valid record is an object with non-empty string `symbol` and `name` and integer `decimals` in 0..18. Its `mint_authority` is a `nova1` address, its `logo` and `uri` pass, and all its keys are allowed. |
| Properties.AcceptedRecord | scripts/validate.mjs:20-59 | On acceptance the count is `tokens.length`, and each record is valid. |
| Properties.AcceptedSymbols | scripts/validate.mjs:41-57 | On acceptance any two symbols differ, and an earlier symbol never sorts after a later one. |
| Properties.FirstFailingRecordReported | scripts/validate.mjs:20-49 | When all records before `i` pass and record `i` fails, record `i`'s first failing check is the verdict, whatever follows. |
| Properties.RejectedRecordLocated | scripts/validate.mjs:20-49 | Conversely, every per-record failure reported is the first failing check of a record all of whose predecessors pass. |
| Properties.OutOfOrderMeaning | scripts/validate.mjs:52-57 | An order failure implies that every record passed and the list is not sorted. The reported index is the first where the record's symbol differs from the sorted copy's, and the reported symbol is that record's. |
| Properties.ValidRecordFault | scripts/validate.mjs:41 | A record that passes its own checks can only fail as a duplicate. |
| Properties.ValidRecordsFault | scripts/validate.mjs:41 | When every record is valid, a failure of the loop is a duplicate, and that symbol occurs at two indices. |
| Properties.DuplicateFound | scripts/validate.mjs:41 | A repeated symbol among valid records makes the loop fail with a duplicate. |
| Properties.DuplicateRejected | scripts/validate.mjs:41 | A repeated symbol among valid records makes the script reject the registry as holding a duplicate, of a symbol that occurs twice. |
| Properties.EntryFields | scripts/validate.mjs:26-46 | Reading the fields and keys of a registry-shaped record. |
| Properties.EntryValid | scripts/validate.mjs:25-47 | A registry-shaped record with a non-empty symbol and decimals in 0..18 passes its own checks. |
| Properties.SingleEntryAccepted | scripts/validate.mjs:59 | A registry with one well-formed entry is accepted with count 1. |
| Properties.DecimalsNineteenRejected | scripts/validate.mjs:29 | `decimals: 19` is rejected as out of range. |
| Properties.SortSwapsPair | scripts/validate.mjs:52 | Two records out of order are swapped by the sort. |
| Properties.PairPasses | scripts/validate.mjs:20-49 | Two valid entries with different symbols pass the record loop. |
| Properties.PairOrderFault | scripts/validate.mjs:52-57 | Two entries are in order exactly when the first does not compare after the second. Otherwise index 0 is reported. |
| Properties.UnsortedRejected | scripts/validate.mjs:55 | `BBB` before `AAA` is reported at index 0 with symbol `BBB`. |
| Properties.CaseInsensitiveOrderAccepted | scripts/validate.mjs:52 | `aaa` before `BBB` is accepted, although `B` comes before `a` by code point. |
| Properties.TriplePasses | scripts/validate.mjs:20-49 | Three valid entries with pairwise different symbols pass the record loop. |
| Properties.SortTieTriple | scripts/validate.mjs:52 | A later element that ties with the first element is sorted after it, not before it. |
| Properties.TiedSort | scripts/validate.mjs:52 | `A`, `c`, `a` sort to `A`, `a`, `c`: the tie keeps its input order. |
| Properties.TiedOrderFault | scripts/validate.mjs:53-56 | For `A`, `c`, `a` the order check reports index 1 with symbol `c`. |
| Properties.TiedOrderReported | scripts/validate.mjs:52-57 | The registry `A`, `c`, `a` is rejected at index 1 with symbol `c`, because the stable sort keeps `A` before `a`. |

In two places the script's messages promise more than its tests check. The
model follows the tests:

- Line 13 says the document "must be a JSON object", and line 25 says each
  record "must be an object". Both tests are `v && typeof v === "object"`,
  which an array also passes. An array document is therefore refused at
  line 14, for lacking a `tokens` array. An array record is refused at
  line 26, for lacking a `symbol`.
- Line 36 says `logo` and `uri` "must be an https:// URL". The test at
  line 35 looks only at truthy values, so `""`, `0`, `false` and `null` are
  accepted without any check.

## Left out

- Reading `registry.json` and `JSON.parse` (lines 7-11): the model starts
  from the parsed value. A parse failure is not modelled.
- `console.error`, `console.log` and `process.exit` (lines 4 and 59), and the
  text of the messages: a failure carries only its kind and context.
- IEEE-754 arithmetic behind `t.decimals % 1 !== 0` (line 28). A number is
  either `Integral(value)` or `Fractional`. `Fractional` also covers the
  infinities an over-large literal parses to. `-0` is `Integral(0)`, and NaN
  cannot come out of `JSON.parse`.
- The ICU collation behind `localeCompare(b, "en", {sensitivity: "base"})`
  (line 52). `Text.Compare` stands in for it: ASCII letter case is folded,
  then code points are compared lexicographically. The model is proved for
  that stand-in, which is a total preorder. ICU also ignores accents at base
  strength and orders punctuation and digits by its own tables. Registries
  whose symbols differ in those ways may be ordered differently by the
  script.
- The JavaScript regular-expression engine (lines 16-17): the two patterns
  are written out as `Text.IsNovaAddress` and `Text.StartsWithHttps`.
- `Json.Keys`: `Object.keys` lists integer-like keys (such as `"0"`) first,
  in numeric order. The model lists keys in the order of their first
  occurrence in the document. A repeated key is listed once, at its first
  position, as `JSON.parse` creates the property there. An integer-like key
  is never allowed, so the verdict is the same `UnknownField` failure for
  the same symbol. Only the reported key can differ, and only when a record
  has several disallowed keys.
- That the input is not changed (lines 52, 59): the document is an immutable
  value, so the sort works on a copy by construction, and there is nothing to
  state.
- `Sorting.SortBy`: the algorithm behind `Array.prototype.sort` is not
  modelled; an insertion sort takes its place. ECMAScript 2019 and later
  require that sort to be stable. `Sorting.SortByStable` proves the insertion
  sort stable. `Sorting.StableSortUnique` proves that every sorted
  arrangement keeping ties in input order is the insertion sort's result. So
  the sorted copy, and with it the reported index, is the same under any
  conforming engine.
