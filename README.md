# Aftermath.net core, modelled in Dafny

Ropufu's Aftermath.net is a C# library. This project models its core. At
the centre is `BasicSchema`, the library's JSON Schema 2020-12 engine.
Around it are the pieces that engine uses: JSON Pointers, the structural
equivalence of JSON values, and the diagnostic logs. The model also covers
the library's general utilities.

- **Schemas (`SchemaNodes`, `SchemaKeywords`, `SchemaValidation`, `SchemaBlocks`, `SchemaLifecycle`, `SchemaArena`).**
  - Every schema of a document lives in one arena. The arena is a class whose field `nodes: seq<Node>` the operations update in place.
  - Node 0 is the `TrivialTrue` singleton and node 1 is `TrivialFalse`.
  - A child always has a smaller id than its parent, because the decoder builds schemas bottom-up.
  - `Add` runs `Initialize` and `OnDeserialized` on a freshly decoded schema. These compute:
    - the immediate subschemas and their addresses;
    - the reference-ownership flags;
    - the core, applicator and validation diagnostics;
    - the self-checks of `const` and `enum`;
    - the deprecation warnings;
    - the children's messages, re-addressed.
- **Resolution (`SchemaResolver`, `SchemaArena.Arena.TryResolveLocalReferences`).**
  - Local `$ref`s are resolved against anchors and JSON Pointers into the root schema.
  - Circular chains of references are detected.
  - Either every resolved reference is kept, or every one is rolled back.
- **Matching (`SchemaMatcher`, `SchemaMatchFacts`).**
  - `IsMatch` decides whether a JSON value matches a schema.
  - Each keyword's check is proved equal to its declarative meaning: `allOf`, `anyOf`, `oneOf`, `if`/`then`/`else`, `prefixItems`, `items`, `contains` with its bounds, `uniqueItems`, `type`, numeric bounds, `multipleOf`, `const` and `enum`.
- **JSON Pointer (`JsonPointer`).** RFC 6901 pointers:
  - escaping and unescaping of reference tokens;
  - parsing and printing, proved to be inverses;
  - composition.
- **JSON values (`JsonElements`, `JsonExtenders`).**
  - Numeric readings of JSON numbers.
  - Arrays and objects read as lists, with object members sorted by name.
  - The `IsEquivalent` relation used by `const`, `enum` and `uniqueItems`.
- **Diagnostics (`Diagnostics`, `JsonDiagnostics`).** Two variants of `Verbose`, a log of leveled messages with optional sources. Messages can be appended, re-addressed under an outer source, and removed by level.
- **Utilities.**
  - `Combinatorics`: permutations, greatest common divisors, and binomial coefficients in 32-bit arithmetic.
  - `UnorderedSample`: an enumerator of all k-subsets, rewriting one index array in place.
  - `TextExtenders`: snake case, capitalisation, trimming in place, and string builder line endings.
  - `CodeGeneration`: code lines, an indenting code builder, and its rendering.
  - `NamedEnum`: the named-enum converter's name lookups.
  - `SimpleTypes`: the JSON primitive-type flags.
  - `MiscExtenders`: distinctness.

Exceptions are modelled as `Result`/`Outcome` values carrying the exception's kind. An exception raised inside `IsMatch` aborts the whole query, as it does in the source.

Matching depends on a regular-expression engine, a URI parser and the raw text of JSON values. The model takes these as parameters, gathered in `SchemaValidation.Env`. Likewise:
- composite formatting (`string.Format`) is a function parameter of `CodeGeneration.CodeLine.Format`;
- the reflection-built name table is a parameter of `NamedEnum`.

The source has several quirks, and the model reproduces each one as written:
- `IsEquivalent` is not symmetric: an integer literal is not equivalent to an equal real literal, but the converse holds.
- `OnDeserialized` empties `Examples` before its loop, so a finished schema has no examples.
- `Initialize` clears the messages logged so far.
- A dynamic reference is resolved through the field that holds the static one.
- When resolution succeeds, only the schemas on the worklist lose their unresolved flag. Their ancestors keep it.
- `prefixItems` longer than the array raises ArgumentOutOfRange, the exception of the list indexer.
- An exception from a `const` or `enum` self-check propagates out of `OnDeserialized`.

## Model

| member | source | states |
|---|---|---|
| Combinatorics.Wrap32 | src/Ropufu/Combinatorics.cs:53 | the unchecked `k + k` of C# is the sum itself inside the 32-bit range and wraps to the sum minus 2^32 just above it |
| Combinatorics.PermutationsOfRange | src/Ropufu/Combinatorics.cs:5-35 | both (0, ..., n - 1) and (n - 1, ..., 0) hold every index below n exactly once |
| Combinatorics.TrivialPermutation | src/Ropufu/Combinatorics.cs:8-19 | ArgumentOutOfRange exactly for a negative n; otherwise a fresh array with element i equal to i |
| Combinatorics.ReversePermutation | src/Ropufu/Combinatorics.cs:24-35 | ArgumentOutOfRange exactly for a negative n; otherwise a fresh array with element i equal to n - 1 - i, the identity read backwards |
| Combinatorics.GcdReduceFirst | src/Ropufu/Combinatorics.cs:95-96 | replacing a by a % b when a > b keeps the greatest common divisor |
| Combinatorics.GcdReduceSecond | src/Ropufu/Combinatorics.cs:97-98 | replacing b by b % a when a <= b keeps the greatest common divisor |
| Combinatorics.GreatestCommonDivisor | src/Ropufu/Combinatorics.cs:91-102 | the Euclid loop returns Gcd(a, b); the final bitwise or is the one of the two that is not zero |
| Combinatorics.GcdDivides | src/Ropufu/Combinatorics.cs:91-102 | the result is positive and divides both arguments when one of them is positive |
| Combinatorics.GcdIsGreatest | src/Ropufu/Combinatorics.cs:91-102 | every common divisor of a and b divides the result, so it is the greatest one |
| Combinatorics.Bezout | src/Ropufu/Combinatorics.cs:91-102 | the result is an integer combination x a + y b of the arguments |
| Combinatorics.QuotientLemma | src/Ropufu/Combinatorics.cs:76-89 | after dividing a and the denominator by their divisor, the reduced denominator divides b and is its divisor with it, and (a / g)(b / (d / g)) is a b / d |
| Combinatorics.MultiplyThenDivide | src/Ropufu/Combinatorics.cs:76-89 | for a product divisible by the denominator: Ok with a b / d exactly when that quotient fits in 32 bits, Overflow otherwise |
| Combinatorics.ChooseAll | src/Ropufu/Combinatorics.cs:50-51 | C(n, n) is 1 |
| Combinatorics.ChooseOne | src/Ropufu/Combinatorics.cs:56 | C(m, 1) is m, the value the loop starts from |
| Combinatorics.ChooseSymmetric | src/Ropufu/Combinatorics.cs:53-54 | C(n, k) equals C(n, n - k), which justifies the recursive call |
| Combinatorics.Absorption | src/Ropufu/Combinatorics.cs:62-63 | (j + 1) C(m + 1, j + 1) equals (m + 1) C(m, j) |
| Combinatorics.Step | src/Ropufu/Combinatorics.cs:62-63 | each turn's product is divisible by the denominator, its quotient is the next coefficient and never smaller than the last |
| Combinatorics.Increasing | src/Ropufu/Combinatorics.cs:62-63 | every intermediate value is at most the final coefficient, so an overflow in a turn means the result overflows |
| Combinatorics.ProductIsChoose | src/Ropufu/Combinatorics.cs:56-63 | multiplying by (b + i) and dividing by i for i = 1..d, as the loop does with b = n - k, gives C(b + d, d) |
| Combinatorics.ChooseBoundary | src/Ropufu.Tests/CombinatoricsTest.cs:23-35 | C(33, 17) is 1166803110 and fits in 32 bits; C(34, 17) is 2333606220 and does not, so by the contract of BinomialCoefficient the first is returned and the second is Overflow |
| Combinatorics.BinomialCoefficient | src/Ropufu/Combinatorics.cs:42-66 | ArgumentOutOfRange exactly when n < 0, k < 0 or k > n; otherwise Ok with C(n, k) exactly when it fits in 32 bits and Overflow when it does not |
| UnorderedSample.Run | src/Ropufu/UnorderedSampleWithoutReplacement.cs:53 | the run (s, s + 1, ..., s + len - 1), whose last instance (n - k, ..., n - 1) is the terminal sample |
| UnorderedSample.BeforeFirst | src/Ropufu/UnorderedSampleWithoutReplacement.cs:75-82 | the state after `Reset`: 0, 1, ..., k - 2 and then k - 2 in the last place |
| UnorderedSample.Movable | src/Ropufu/UnorderedSampleWithoutReplacement.cs:50-62 | the rightmost position below pos whose index is not at its ceiling n - k + j, or -1; every position between it and pos is at its ceiling |
| UnorderedSample.SuccessorAt | src/Ropufu/UnorderedSampleWithoutReplacement.cs:62-68 | keeping the prefix and counting up from the movable position by one per place is the successor sample |
| UnorderedSample.SuccessorIsLaterSample | src/Ropufu/UnorderedSampleWithoutReplacement.cs:48-73 | from any reachable state a move gives a strictly increasing sample below n that is lexicographically later; no move is possible only at (n - k, ..., n - 1) |
| UnorderedSample.TailIsChooseLessOne | src/Ropufu/UnorderedSampleWithoutReplacement.cs:48-73 | the samples after the first of an m-population number C(m, r) - 1 |
| UnorderedSample.RemainingAtCeiling | src/Ropufu/UnorderedSampleWithoutReplacement.cs:56-62 | positions at their ceilings leave no samples to come |
| UnorderedSample.SuccessorConsumesOne | src/Ropufu/UnorderedSampleWithoutReplacement.cs:48-73 | every successful move uses up exactly one of the samples still to come; a failed move happens only when none is left |
| UnorderedSample.RemainingAfterReset | src/Ropufu/UnorderedSampleWithoutReplacement.cs:75-82 | after `Reset` all C(n, k) samples are still to come |
| UnorderedSample.YieldsIsRemaining | src/Ropufu/UnorderedSampleWithoutReplacement.cs:48-73 | the number of successful moves from a state is the number of samples still to come |
| UnorderedSample.YieldsAfterReset | src/Ropufu.Tests/UnorderedSampleWithoutReplacementTest.cs:8-21 | a fresh enumerator with 0 < k <= n moves successfully exactly C(n, k) times; with k = 0 it never moves |
| UnorderedSample.Enumerator.constructor | src/Ropufu/UnorderedSampleWithoutReplacement.cs:21-34 | keeps n and k and leaves the indices in the `Reset` state |
| UnorderedSample.Enumerator.PopulationSize | src/Ropufu/UnorderedSampleWithoutReplacement.cs:36-37 | returns n |
| UnorderedSample.Enumerator.SampleSize | src/Ropufu/UnorderedSampleWithoutReplacement.cs:39-40 | returns k |
| UnorderedSample.Enumerator.Current | src/Ropufu/UnorderedSampleWithoutReplacement.cs:42-43 | returns the current indices |
| UnorderedSample.Enumerator.Reset | src/Ropufu/UnorderedSampleWithoutReplacement.cs:75-82 | the indices become 0, ..., k - 2, k - 2 (nothing for k = 0) |
| UnorderedSample.Enumerator.Rewrite | src/Ropufu/UnorderedSampleWithoutReplacement.cs:65-66 | positions before p unchanged; position j from p on becomes the old index at p plus 1 + (j - p) |
| UnorderedSample.Enumerator.MoveNext | src/Ropufu/UnorderedSampleWithoutReplacement.cs:48-73 | true exactly when a successor exists, and then the indices are that successor; false leaves the indices unchanged |
| UnorderedSample.Open | src/Ropufu/UnorderedSampleWithoutReplacement.cs:21-34 | ArgumentOutOfRange exactly when n < 0, k < 0 or k > n; otherwise a fresh enumerator in the `Reset` state |
| UnorderedSample.CountSamples | src/Ropufu.Tests/UnorderedSampleWithoutReplacementTest.cs:8-56 | counting the moves of a fresh enumerator gives C(n, k), as the tests check against `BinomialCoefficient` |
| MiscExtenders.IsDistinct | src/Ropufu/MiscExtenders.cs:5-29 | true exactly when no element occurs twice (both overloads) |
| MiscExtenders.DistinctIffNoCollapse | src/Ropufu/MiscExtenders.cs:9-15 | the hash-set reading of distinctness: a sequence is distinct exactly when its set of elements is as large as the sequence |
| NamedEnum.Lookup | src/Ropufu.Json/Converters/JsonNamedEnumNoexceptConverter.cs:93 | `TryGetValue` on the name table: a found value is paired with that name in the table, and nothing is found exactly when no entry has the name |
| NamedEnum.LookupEntry | src/Ropufu.Json/Converters/JsonNamedEnumNoexceptConverter.cs:14 | with names listed once, looking up an entry's name gives the entry's value |
| NamedEnum.TryParse | src/Ropufu.Json/Converters/JsonNamedEnumNoexceptConverter.cs:89-98 | succeeds exactly when the table has the name, and then gives that entry's value |
| NamedEnum.TryGetName | src/Ropufu.Json/Converters/JsonNamedEnumNoexceptConverter.cs:48-63 | the first name, in table order, whose value equals the given value, or nothing |
| NamedEnum.FirstNameSpec | src/Ropufu.Json/Converters/JsonNamedEnumNoexceptConverter.cs:48-63 | a name found for a value parses back to that value; no name is found exactly when no entry has the value |
| NamedEnum.OverlappingStep | src/Ropufu.Json/Converters/JsonNamedEnumNoexceptConverter.cs:73-74 | an entry joins the collected ones exactly when its value shares a bit with the given value |
| NamedEnum.UnionStep | src/Ropufu.Json/Converters/JsonNamedEnumNoexceptConverter.cs:76-77 | adding an entry adds its name to the list and ORs its value into the reconstruction |
| NamedEnum.OverlappingFromTable | src/Ropufu.Json/Converters/JsonNamedEnumNoexceptConverter.cs:71-78 | every entry collected for a value is an entry of the name table |
| NamedEnum.TryGetNames | src/Ropufu.Json/Converters/JsonNamedEnumNoexceptConverter.cs:65-87 | the names of the entries sharing a bit with the value, in table order, provided the bitwise or of their values is the value; nothing otherwise |
| NamedEnum.TryParseNames | src/Ropufu.Json/Converters/JsonNamedEnumNoexceptConverter.cs:100-113 | the bitwise or of the values of the names, or nothing as soon as one name is unknown |
| NamedEnum.ParseNamesStep | src/Ropufu.Json/Converters/JsonNamedEnumNoexceptConverter.cs:105-109 | one more name ORs its value into the aggregate when both are known, and fails otherwise |
| NamedEnum.UnknownNameFails | src/Ropufu.Json/Converters/JsonNamedEnumNoexceptConverter.cs:105-109 | one unknown name anywhere in the list makes the whole parse fail |
| NamedEnum.NamesRoundTrip | src/Ropufu.Json/Converters/JsonNamedEnumNoexceptConverter.cs:65-113 | parsing the names written for a flag value gives that value back |
| NamedEnum.ParseUnion | src/Ropufu.Json/Converters/JsonNamedEnumNoexceptConverter.cs:100-113 | parsing the names of any entries of the table gives the bitwise or of their values |
| SimpleTypes.AllTypes | src/Ropufu.Json/SimpleType.cs:8-25 | the seven named members of the primitive-type flags enumeration |
| SimpleTypes.NameTableExamples | src/Ropufu.Json/SimpleType.cs:10-24 | the SimpleType names are distinct; "integer" names 0x04, `Missing` (0) has no name, and a list with an unknown name does not parse |
| SimpleTypes.FlagNamesExample | src/Ropufu.Json/SimpleType.cs:15-20 | Integer or Number is written as the list ["integer", "number"] |
| SimpleTypes.NameLooksUp | src/Ropufu.Json/SimpleType.cs:10-24 | the name of every named member reads back as that member's flag |
| SimpleTypes.BooleanOr | src/Ropufu.Json.Tests/BasicSchemaTest.cs:101-121 | for every named member, ["boolean", its name] parses to Boolean combined with that member |
| JsonElements.TryGetInt64 | src/Ropufu.Json/BasicSchema.cs:309-314 | a number reads as a 64-bit integer exactly when it is written without fraction or exponent and lies in the Int64 range, and then the reading is its value |
| JsonElements.TryGetDecimal | src/Ropufu/JsonExtenders.cs:83-89 | a number reads as a decimal exactly when its magnitude is at most 2^96 - 1, and then the reading is its value |
| JsonElements.TryGetDouble | src/Ropufu.Json/BasicSchema.cs:315-321 | a number reads as a double exactly when its magnitude is below 2^1024 - 2^970, the least that rounds to infinity, and then the reading is its value |
| JsonExtenders.KeyLeTotal | src/Ropufu/JsonExtenders.cs:57 | the ordinal name order used to sort members is total |
| JsonExtenders.Insert | src/Ropufu/JsonExtenders.cs:57 | inserting a member into a name-sorted list keeps it sorted and adds exactly that member |
| JsonExtenders.SortByKey | src/Ropufu/JsonExtenders.cs:57 | the members sorted by name: sorted, and a permutation of the input |
| JsonExtenders.MemberOfSorted | src/Ropufu/JsonExtenders.cs:57 | every member of the sorted list is a member of the object |
| JsonExtenders.TryGetArrayAsList | src/Ropufu/JsonExtenders.cs:16-31 | succeeds exactly on arrays, and then gives the elements in document order |
| JsonExtenders.ObjectAsList | src/Ropufu/JsonExtenders.cs:48-57 | the members of an object, sorted by name and a permutation of the document's members |
| JsonExtenders.TryGetObjectAsList | src/Ropufu/JsonExtenders.cs:40-59 | succeeds exactly on objects, and then gives their members sorted by name, duplicates kept |
| JsonExtenders.IsEquivalent | src/Ropufu/JsonExtenders.cs:61-134 | decides structural equivalence: same kind, equal strings, numbers through the Int64/decimal/double cascade, arrays element by element, objects member by member after sorting by name |
| JsonExtenders.ArraysEquivalent | src/Ropufu/JsonExtenders.cs:99-110 | two arrays are equivalent exactly when they have the same length and equivalent elements at each index |
| JsonExtenders.ObjectsEquivalent | src/Ropufu/JsonExtenders.cs:111-130 | two objects are equivalent exactly when their name-sorted member lists have the same length, the same names and equivalent values at each index |
| JsonExtenders.EquivalentReflexive | src/Ropufu/JsonExtenders.cs:61-134 | every value is equivalent to itself |
| JsonExtenders.EquivalentSameKind | src/Ropufu/JsonExtenders.cs:63-96 | equivalent values have the same kind, and equivalent numbers the same value |
| JsonExtenders.EquivalentNotSymmetric | src/Ropufu/JsonExtenders.cs:76-89 | the cascade is not symmetric: 17 is not equivalent to 17.0, while 17.0 is equivalent to 17 |
| JsonExtenders.EquivalentSound | src/Ropufu/JsonExtenders.cs:61-134 | equivalent values denote the same JSON data once members are ordered by name and numbers read as values |
| JsonExtenders.ArraysSound | src/Ropufu/JsonExtenders.cs:99-110 | the array case of soundness |
| JsonExtenders.ObjectsSound | src/Ropufu/JsonExtenders.cs:111-130 | the object case of soundness |
| Diagnostics.WithoutSpec | src/Ropufu/Verbose.cs:85-95 | after removing a level no message of it is left, every message of another level is kept, and a list without that level is unchanged |
| Diagnostics.Relocated | src/Ropufu/Verbose.cs:39-45 | a re-addressed message keeps its text and level and always has a source: the outer source when it had none, the composition of outer and its own otherwise |
| Diagnostics.PresentPrefix | src/Ropufu/Verbose.cs:61-65 | the number of items before the first null one: all of those are present and the next, if any, is null |
| Diagnostics.Verbose.constructor | src/Ropufu/Verbose.cs:8-13 | a new log holds no messages and uses the given composition |
| Diagnostics.Verbose.Has | src/Ropufu/Verbose.cs:18-25 | true exactly when some message has the level |
| Diagnostics.Verbose.Log | src/Ropufu/Verbose.cs:27-31 | appends one message with that text, level and source, and changes nothing else |
| Diagnostics.Verbose.LogMessage | src/Ropufu/Verbose.cs:33-37 | appends the message |
| Diagnostics.Verbose.LogRelative | src/Ropufu/Verbose.cs:47-53 | appends the message re-addressed under the outer source |
| Diagnostics.Verbose.LogRange | src/Ropufu/Verbose.cs:57-66 | appends the items in order up to the first null one, and raises exactly when a null item exists |
| Diagnostics.Verbose.LogRangeRelative | src/Ropufu/Verbose.cs:70-80 | as LogRange, each appended item re-addressed under the outer source |
| Diagnostics.Verbose.Clear | src/Ropufu/Verbose.cs:82-83 | leaves no messages |
| Diagnostics.Verbose.ClearLevel | src/Ropufu/Verbose.cs:85-95 | the in-place removal loop leaves exactly the messages of other levels, in their order |
| JsonDiagnostics.WithoutSpec | src/Ropufu.Json/Verbose.cs:80-90 | after removing a level no message of it is left, every message of another level is kept, and a list without that level is unchanged |
| JsonDiagnostics.Relocated | src/Ropufu.Json/Verbose.cs:39-45 | a re-addressed message keeps its text and level and always has a source |
| JsonDiagnostics.RelocatedComposes | src/Ropufu.Json/Verbose.cs:44 | when the message's source is itself a pointer, the new source is the text of the composed pointer |
| JsonDiagnostics.PresentPrefix | src/Ropufu.Json/Verbose.cs:59-63 | the number of items before the first null one: all of those are present and the next, if any, is null |
| JsonDiagnostics.Verbose.constructor | src/Ropufu.Json/Verbose.cs:7 | a new log holds no messages |
| JsonDiagnostics.Verbose.Has | src/Ropufu.Json/Verbose.cs:12-19 | true exactly when some message has the level |
| JsonDiagnostics.Verbose.Log | src/Ropufu.Json/Verbose.cs:30-31 | appends one message with that text and level, the source written as pointer text |
| JsonDiagnostics.Verbose.LogError | src/Ropufu.Json/Verbose.cs:21-22 | appends one message of level Error |
| JsonDiagnostics.Verbose.LogWarning | src/Ropufu.Json/Verbose.cs:24-25 | appends one message of level Warning |
| JsonDiagnostics.Verbose.LogInformation | src/Ropufu.Json/Verbose.cs:27-28 | appends one message of level Information |
| JsonDiagnostics.Verbose.LogMessage | src/Ropufu.Json/Verbose.cs:33-37 | appends the message |
| JsonDiagnostics.Verbose.LogRelative | src/Ropufu.Json/Verbose.cs:47-53 | appends the message re-addressed under the pointer |
| JsonDiagnostics.Verbose.LogAll | src/Ropufu.Json/Verbose.cs:55-64 | appends the items in order up to the first null one, and raises exactly when a null item exists |
| JsonDiagnostics.Verbose.LogAllRelative | src/Ropufu.Json/Verbose.cs:66-76 | as LogAll, each appended item re-addressed under the pointer |
| JsonDiagnostics.Verbose.Clear | src/Ropufu.Json/Verbose.cs:78 | leaves no messages |
| JsonDiagnostics.Verbose.ClearLevel | src/Ropufu.Json/Verbose.cs:80-90 | the in-place removal loop leaves exactly the messages of other levels, in their order |
| TextExtenders.ToLower | src/Ropufu/TextExtenders.cs:92 | an upper-case letter becomes lower case; every other character is unchanged |
| TextExtenders.ToUpper | src/Ropufu/TextExtenders.cs:140 | a lower-case letter becomes upper case and lowers back to itself; every other character is unchanged |
| TextExtenders.SnakedAfter | src/Ropufu/TextExtenders.cs:76-105 | the first loop's text is at most twice as long as the input, and empty exactly when the input is |
| TextExtenders.DropLeading | src/Ropufu/TextExtenders.cs:107-116 | removes the longest prefix of underscores: what is left is a suffix that does not start with one |
| TextExtenders.DropTrailing | src/Ropufu/TextExtenders.cs:118-127 | removes the longest suffix of underscores: what is left is a prefix that does not end with one |
| TextExtenders.Before | src/Ropufu/TextExtenders.cs:104 | the character the loop remembers holds at most one character |
| TextExtenders.SnakedStep | src/Ropufu/TextExtenders.cs:80-105 | one turn of the first loop appends the piece of one character |
| TextExtenders.ToSnakeCase | src/Ropufu/TextExtenders.cs:72-130 | the three loops compute SnakeCase: the snake-cased text, then the requested trims |
| TextExtenders.RemoveLeadingUnderscores | src/Ropufu/TextExtenders.cs:107-116 | the TrimStart loop computes DropLeading |
| TextExtenders.RemoveTrailingUnderscores | src/Ropufu/TextExtenders.cs:118-127 | the TrimEnd loop computes DropTrailing |
| TextExtenders.LowerLetters | src/Ropufu/TextExtenders.cs:69-70 | the letters of a text, lowered, are all lower case |
| TextExtenders.WithoutUnderscoresConcat | src/Ropufu/TextExtenders.cs:69-70 | removing underscores distributes over concatenation |
| TextExtenders.DropLeadingKeepsLetters | src/Ropufu/TextExtenders.cs:107-116 | the TrimStart loop removes only underscores |
| TextExtenders.DropTrailingKeepsLetters | src/Ropufu/TextExtenders.cs:118-127 | the TrimEnd loop removes only underscores |
| TextExtenders.PieceKeepsLetter | src/Ropufu/TextExtenders.cs:86-101 | one input character contributes its lowered self when it is a letter and only underscores otherwise |
| TextExtenders.SnakedKeepsLetters | src/Ropufu/TextExtenders.cs:80-105 | without its underscores, the first loop's text is the input's letters lowered |
| TextExtenders.SnakeCaseKeepsLetters | src/Ropufu/TextExtenders.cs:69-70 | without its underscores, the result is the input's letters lowered, in order, whatever the options |
| TextExtenders.SnakedAlphabet | src/Ropufu/TextExtenders.cs:80-105 | the first loop writes only lower-case letters and underscores |
| TextExtenders.SnakeCaseAlphabet | src/Ropufu/TextExtenders.cs:69-130 | the result holds only lower-case letters and underscores; with TrimStart it does not start with an underscore, with TrimEnd it does not end with one |
| TextExtenders.TrimmedAlphabet | src/Ropufu/TextExtenders.cs:107-127 | the trims keep the alphabet and leave no underscore at a trimmed end |
| TextExtenders.NoDoubleUnderscoreConcat | src/Ropufu/TextExtenders.cs:97-100 | two texts without doubled underscores concatenate into one when they do not meet at two underscores |
| TextExtenders.CollapsedAfterNonLetter | src/Ropufu/TextExtenders.cs:97-100 | with CollapseUnderscores, after a non-letter the text goes on with a letter or not at all |
| TextExtenders.CollapsedHasNoDoubleUnderscore | src/Ropufu/TextExtenders.cs:11-14 | with CollapseUnderscores the result never has two underscores side by side |
| TextExtenders.UnderscoresConcat | src/Ropufu/TextExtenders.cs:69-70 | the number of underscores in a concatenation is the sum |
| TextExtenders.UncollapsedUnderscores | src/Ropufu/TextExtenders.cs:69-70 | without collapsing there is one underscore per non-letter and one per lower-to-upper step |
| TextExtenders.SnakedConcat | src/Ropufu/TextExtenders.cs:80-105 | the first loop's text of a concatenation is the concatenation of the texts, the second started after the first's last character |
| TextExtenders.SnakedLowerCase | src/Ropufu/TextExtenders.cs:86-87 | lower-case text passes through unchanged |
| TextExtenders.SnakedNonLetters | src/Ropufu/TextExtenders.cs:94-101 | without collapsing, every non-letter becomes one underscore |
| TextExtenders.DropLeadingBar | src/Ropufu/TextExtenders.cs:107-116 | leading underscores before a text that does not start with one are all dropped |
| TextExtenders.DropTrailingBar | src/Ropufu/TextExtenders.cs:118-127 | trailing underscores after a text that does not end with one are all dropped |
| TextExtenders.SnakeCaseExampleCapitalization | src/Ropufu.Tests/TextExtenderTest.cs:7-9 | " firstName" becomes "_first_name" |
| TextExtenders.SnakeCaseExampleDouble | src/Ropufu.Tests/TextExtenderTest.cs:11-13 | "first  name " becomes "first__name_" |
| TextExtenders.SnakeCaseExampleCollapse | src/Ropufu.Tests/TextExtenderTest.cs:15-17 | with CollapseUnderscores, "first  name " becomes "first_name_" |
| TextExtenders.SnakeCaseExampleTrim | src/Ropufu.Tests/TextExtenderTest.cs:19-21 | with Trim, " ?% happiness for All !!! " becomes "happiness_for_all" |
| TextExtenders.TrimExampleFront | src/Ropufu.Tests/TextExtenderTest.cs:19-21 | the first half of that example: the leading non-letters each become one underscore |
| TextExtenders.TrimExampleBack | src/Ropufu.Tests/TextExtenderTest.cs:19-21 | the second half of that example: the capital A is lowered without an underscore after a space, and the trailing non-letters each become one underscore |
| TextExtenders.Bar | src/Ropufu/TextExtenders.cs:98-100 | a run of k underscores |
| TextExtenders.CapitalizeFirstLetter | src/Ropufu/TextExtenders.cs:132-143 | the empty text is returned as is; otherwise only the first character changes, to its upper-case form, so it is not a lower-case letter |
| TextExtenders.CapitalizeIdempotent | src/Ropufu/TextExtenders.cs:132-143 | capitalising twice is capitalising once |
| TextExtenders.TrimStartSpec | src/Ropufu/TextExtenders.cs:57 | the leading trim removes the longest white-space prefix |
| TextExtenders.TrimEndSpec | src/Ropufu/TextExtenders.cs:57 | the trailing trim removes the longest white-space suffix |
| TextExtenders.TrimmedEnds | src/Ropufu/TextExtenders.cs:57 | a trimmed text is empty or neither starts nor ends with white space |
| TextExtenders.TrimmedSlice | src/Ropufu/TextExtenders.cs:57 | a trimmed text is one slice of the original, and what is cut off on either side is white space |
| TextExtenders.TrimmedIdempotent | src/Ropufu/TextExtenders.cs:57 | trimming twice is trimming once |
| TextExtenders.TrimmedAll | src/Ropufu/TextExtenders.cs:50-67 | the list TrimAll leaves is no longer than the input, and as long when empty entries are kept |
| TextExtenders.TrimmedAllEntries | src/Ropufu/TextExtenders.cs:55-66 | every entry left is trimmed, and with removeEmptyEntries none is empty |
| TextExtenders.TrimmedAllInPlace | src/Ropufu/TextExtenders.cs:57-59 | without removeEmptyEntries each entry is replaced by its trimmed self, in place |
| TextExtenders.TrimmedAllStep | src/Ropufu/TextExtenders.cs:55-66 | TrimAll of one more entry extends TrimAll of the entries before it |
| TextExtenders.Split | src/Ropufu/TextExtenders.cs:59-64 | the list at entry j is the entries already handled, entry j and the rest; replacing or removing at that index acts on entry j alone |
| TextExtenders.TrimAllTurn | src/Ropufu/TextExtenders.cs:57-65 | one turn of the loop replaces entry j by its trimmed self, or removes it when it is empty and removeEmptyEntries holds |
| TextExtenders.StringList.constructor | src/Ropufu/TextExtenders.cs:50 | the list holds the given entries |
| TextExtenders.StringList.TrimAll | src/Ropufu/TextExtenders.cs:50-67 | the in-place loop, with its index stepping back after a removal, leaves exactly TrimmedAll of the old list |
| TextExtenders.StringBuilder.constructor | src/Ropufu/TextExtenders.cs:139 | a new builder is empty |
| TextExtenders.StringBuilder.Append | src/Ropufu/TextExtenders.cs:149 | appends the text and returns the same builder |
| TextExtenders.StringBuilder.AppendCarriageReturn | src/Ropufu/TextExtenders.cs:145-150 | appends the text and a carriage return, and returns the same builder |
| TextExtenders.StringBuilder.AppendLineFeed | src/Ropufu/TextExtenders.cs:152-157 | appends the text and a line feed, and returns the same builder |
| TextExtenders.StringBuilder.AppendCarriageReturnLineFeed | src/Ropufu/TextExtenders.cs:159-164 | appends the text, a carriage return and a line feed, and returns the same builder |
| CodeGeneration.CodeBuilderFormat.constructor | src/Ropufu/CodeGeneration/CodeBuilderFormat.cs:5-8 | a new format has tab size 4, line break "\n" and tab symbol space |
| CodeGeneration.CodeBuilderFormat.SetTabSize | src/Ropufu/CodeGeneration/CodeBuilderFormat.cs:10-20 | a negative size is refused with ArgumentOutOfRange and the size kept; any other size is stored; the other settings never change |
| CodeGeneration.CodeBuilderFormat.SetNewLineSequence | src/Ropufu/CodeGeneration/CodeBuilderFormat.cs:22-30 | null is refused with ArgumentNull and the sequence kept; any other sequence is stored; the other settings never change |
| CodeGeneration.CodeBuilderFormat.SetTabSymbol | src/Ropufu/CodeGeneration/CodeBuilderFormat.cs:8 | stores the symbol and changes nothing else |
| CodeGeneration.CodeLine.Make | src/Ropufu/CodeGeneration/CodeLine.cs:10-14 | a line holding the code and offset given |
| CodeGeneration.CodeLine.SetCode | src/Ropufu/CodeGeneration/CodeLine.cs:16-24 | null is refused with ArgumentNull and the code kept; otherwise the code is stored; the offset never changes |
| CodeGeneration.CodeLine.SetTabOffset | src/Ropufu/CodeGeneration/CodeLine.cs:26-36 | a negative offset is refused with ArgumentOutOfRange and the offset kept; otherwise it is stored; the code never changes |
| CodeGeneration.CodeLine.Format | src/Ropufu/CodeGeneration/CodeLine.cs:38-45 | a new line holding the formatted code and the same offset, or a format failure exactly when formatting fails |
| CodeGeneration.NewCodeLine | src/Ropufu/CodeGeneration/CodeLine.cs:10-14 | the constructor fails with ArgumentNull on a null code, then with ArgumentOutOfRange on a negative offset, and otherwise makes a new line with those values |
| CodeGeneration.FromString | src/Ropufu/CodeGeneration/CodeLine.cs:47-49 | the conversion from a string gives null exactly for null, and otherwise a new line with that code and offset 0 |
| CodeGeneration.Shift | src/Ropufu/CodeGeneration/CodeBuilder.cs:72 | every line indented by the level, in order |
| CodeGeneration.ShiftConcat | src/Ropufu/CodeGeneration/CodeBuilder.cs:84-95 | indenting distributes over concatenation |
| CodeGeneration.ShiftShift | src/Ropufu/CodeGeneration/CodeBuilder.cs:97-105 | a builder appended inside another, itself appended inside a third, is indented by the sum of their levels |
| CodeGeneration.NonEmpty | src/Ropufu/CodeGeneration/CodeBuilder.cs:120-124 | the non-empty pieces are no more than the pieces |
| CodeGeneration.NonEmptyConcat | src/Ropufu/CodeGeneration/CodeBuilder.cs:120-124 | filtering out empty pieces distributes over concatenation |
| CodeGeneration.NonEmptyMembers | src/Ropufu/CodeGeneration/CodeBuilder.cs:120-124 | a piece is kept exactly when it is one of the pieces and is not empty |
| CodeGeneration.InterleaveConcat | src/Ropufu/CodeGeneration/CodeBuilder.cs:126-135 | at any split into two non-empty runs of pieces, exactly one blank line separates them |
| CodeGeneration.InterleaveLength | src/Ropufu/CodeGeneration/CodeBuilder.cs:126-135 | the join holds the lines of the pieces and one blank line per gap |
| CodeGeneration.InterleaveStarts | src/Ropufu/CodeGeneration/CodeBuilder.cs:126-135 | the join starts with the first piece |
| CodeGeneration.JoinedEnds | src/Ropufu/CodeGeneration/CodeBuilder.cs:107-138 | joining adds nothing exactly when every piece is empty; otherwise it starts with the first non-empty piece and ends with the last |
| CodeGeneration.Repeat | src/Ropufu/CodeGeneration/CodeBuilder.cs:154 | the symbol n times |
| CodeGeneration.RenderConcat | src/Ropufu/CodeGeneration/CodeBuilder.cs:149-158 | rendering distributes over concatenation of line lists |
| CodeGeneration.RepeatAdd | src/Ropufu/CodeGeneration/CodeBuilder.cs:154 | repeating m + n times is repeating m times then n times |
| CodeGeneration.ShiftedLine | src/Ropufu/CodeGeneration/CodeBuilder.cs:151-156 | a line appended k levels deeper is rendered with TabSize times k more tab symbols in front |
| CodeGeneration.SplitAfter | src/Ropufu/CodeGeneration/CodeBuilder.cs:156 | splitting at line feeds finds the piece before the first line feed, then splits the rest |
| CodeGeneration.Texts | src/Ropufu/CodeGeneration/CodeBuilder.cs:151-155 | one text per line |
| CodeGeneration.RenderSplitsBack | src/Ropufu/CodeGeneration/CodeBuilder.cs:143-160 | with line feeds as line breaks, a tab symbol that is not one and codes without one, the rendered text splits back into the indented lines, one per line |
| CodeGeneration.CodeBuilder.constructor | src/Ropufu/CodeGeneration/CodeBuilder.cs:43-45 | a new builder has no lines, level 0 and no open blocks |
| CodeGeneration.CodeBuilder.NewCodeBlock | src/Ropufu/CodeGeneration/CodeBuilder.cs:53-54 | a new undisposed block of this builder; the level rises by one and the lines do not change |
| CodeGeneration.CodeBuilder.AppendEmpty | src/Ropufu/CodeGeneration/CodeBuilder.cs:59-63 | appends one empty line at the current level and returns the builder |
| CodeGeneration.CodeBuilder.Append | src/Ropufu/CodeGeneration/CodeBuilder.cs:68-74 | a null text fails with ArgumentNull; a total indentation below zero fails with ArgumentOutOfRange; otherwise one line at the level plus the offset is appended |
| CodeGeneration.CodeBuilder.AppendLine | src/Ropufu/CodeGeneration/CodeBuilder.cs:76-82 | a null line fails with ArgumentNull; otherwise a copy of the line, at the level plus its offset, is appended |
| CodeGeneration.CodeBuilder.AppendLines | src/Ropufu/CodeGeneration/CodeBuilder.cs:84-95 | the lines before the first null one are appended in order at the current level; a null line fails with Argument after those |
| CodeGeneration.CodeBuilder.AppendBuilder | src/Ropufu/CodeGeneration/CodeBuilder.cs:97-105 | the other builder's lines, each the current level deeper, in order; a non-empty builder appended to itself fails after copying its first line |
| CodeGeneration.CodeBuilder.AppendJoin | src/Ropufu/CodeGeneration/CodeBuilder.cs:107-138 | a null element fails before anything is appended; otherwise the non-empty builders' lines are appended at the current level with one blank line between consecutive builders; joining this non-empty builder into itself fails, leaving the join of the non-empty builders before its first occurrence, a blank line when there are any, and its own first line |
| CodeGeneration.CodeBuilder.AppendBlocks | src/Ropufu/CodeGeneration/CodeBuilder.cs:126-135 | the second loop appends the blocks with a blank line before all but the first; when it meets this builder it stops with an error after the blocks before that builder's first position and a copy of its first line |
| CodeGeneration.CodeBuilder.ToText | src/Ropufu/CodeGeneration/CodeBuilder.cs:143-160 | a null format fails with ArgumentNull; otherwise every line is rendered in order with the format's settings |
| CodeGeneration.CodeBuilder.ToDefaultText | src/Ropufu/CodeGeneration/CodeBuilder.cs:140-141 | renders with the default settings |
| CodeGeneration.NewCodeBuilder | src/Ropufu/CodeGeneration/CodeBuilder.cs:47-48 | a negative capacity fails with ArgumentOutOfRange; otherwise a new empty builder |
| CodeGeneration.BuilderBlock.constructor | src/Ropufu/CodeGeneration/CodeBuilder.cs:12-16 | opening a block raises its builder's level by one and leaves the lines alone |
| CodeGeneration.BuilderBlock.Dispose | src/Ropufu/CodeGeneration/CodeBuilder.cs:18-34 | the first disposal lowers the builder's level by one, later ones change nothing |
| CodeGeneration.FirstNull | src/Ropufu/CodeGeneration/CodeBuilder.cs:89-93 | the index of the first null line, or the length when there is none |
| CodeGeneration.FirstNullIs | src/Ropufu/CodeGeneration/CodeBuilder.cs:89-93 | the first null index is the only index with no null before it and a null at it |
| CodeGeneration.Copies | src/Ropufu/CodeGeneration/CodeBuilder.cs:93 | one copied line per line |
| CodeGeneration.CopiesTurn | src/Ropufu/CodeGeneration/CodeBuilder.cs:89-93 | one turn of the loop appends the copy of one more line |
| CodeGeneration.NonEmptyBuilders | src/Ropufu/CodeGeneration/CodeBuilder.cs:120-124 | the first loop keeps exactly the non-empty builders, in order, and fails exactly at a null element |
| CodeGeneration.KeptBuildersMeaning | src/Ropufu/CodeGeneration/CodeBuilder.cs:120-124 | the kept builders are as many as the non-empty blocks, hold them in order, and are exactly the builders with lines |
| CodeGeneration.KeptPosition | src/Ropufu/CodeGeneration/CodeBuilder.cs:120-124 | a non-empty builder first met at position i is kept at the count of non-empty builders before i, and nowhere earlier |
| CodeGeneration.NonEmptyPrefix | src/Ropufu/CodeGeneration/CodeBuilder.cs:120-124 | the non-empty blocks of the first i builders are a prefix of all the non-empty blocks |
| CodeGeneration.Contents | src/Ropufu/CodeGeneration/CodeBuilder.cs:37 | the lines of each builder |
| CodeGeneration.JoinTurn | src/Ropufu/CodeGeneration/CodeBuilder.cs:128-134 | one turn of the second loop extends the join by a blank line, when not first, and the next block |
| CodeGeneration.SelfJoinTurn | src/Ropufu/CodeGeneration/CodeBuilder.cs:128-134 | a turn that meets the builder itself leaves the join so far, the blank line when not first, and a copy of the builder's first line |
| CodeGeneration.FirstIndexAt | src/Ropufu/CodeGeneration/CodeBuilder.cs:126-135 | an element not met before position j first occurs at j, which is where the second loop stops |
| CodeGeneration.BlockExample | src/Ropufu/CodeGeneration/CodeBuilder.cs:53-54 | a line appended inside a code block renders four spaces deeper than the lines around the block |
| JsonPointer.Escaped | src/Ropufu.Json/JsonPointer.cs:145-169 | escaping never shortens a token |
| JsonPointer.PrefixedCons | src/Ropufu.Json/JsonPointer.cs:225-253 | decoding appends characters in reading order |
| JsonPointer.Unescaped | src/Ropufu.Json/JsonPointer.cs:218-255 | decoding never lengthens a token |
| JsonPointer.OkAtShift | src/Ropufu.Json/JsonPointer.cs:176-203 | whether a position is acceptable does not depend on the characters before it |
| JsonPointer.WellEscapedDrop | src/Ropufu.Json/JsonPointer.cs:180-200 | after acceptable positions, the rest of a token decides legitimacy alone |
| JsonPointer.UnescapedDefinedIff | src/Ropufu.Json/JsonPointer.cs:176-255 | decoding succeeds exactly when the legitimacy check accepts: no '/', and every '~' followed by '0' or '1' |
| JsonPointer.UnescapeEscape | src/Ropufu.Json/JsonPointer.cs:128-137 | decoding an escaped token gives the token back |
| JsonPointer.WellEscapedHasNoSlash | src/Ropufu.Json/JsonPointer.cs:184-185 | a legitimate token holds no '/' |
| JsonPointer.EscapeUnescape | src/Ropufu.Json/JsonPointer.cs:205-255 | escaping a decoded token gives the token back, so each legitimate token has exactly one decoding |
| JsonPointer.EscapedHasNoSlash | src/Ropufu.Json/JsonPointer.cs:128-131 | an escaped token never holds the separator |
| JsonPointer.EscapedPlain | src/Ropufu.Json/JsonPointer.cs:162-164 | a token with neither '~' nor '/' is its own escaped form |
| JsonPointer.Escape | src/Ropufu.Json/JsonPointer.cs:139-169 | the one-pass loop computes the escaped form |
| JsonPointer.EscapedSnoc | src/Ropufu.Json/JsonPointer.cs:151-166 | escaping one more character appends that character's escape |
| JsonPointer.IsReferenceToken | src/Ropufu.Json/JsonPointer.cs:171-203 | true exactly when the token is legitimate |
| JsonPointer.TryUnescape | src/Ropufu.Json/JsonPointer.cs:205-255 | the loop computes the decoding, failing exactly on illegitimate tokens |
| JsonPointer.Pointer.At | src/Ropufu.Json/JsonPointer.cs:116-126 | IndexOutOfRange exactly when the index is outside the pointer; otherwise the unescaped token, whose escaped form is the stored one |
| JsonPointer.FromTokens | src/Ropufu.Json/JsonPointer.cs:32-45 | the pointer of unescaped tokens has one token per input, and reading token i gives input i back |
| JsonPointer.Compose | src/Ropufu.Json/JsonPointer.cs:84-105 | the tokens of the first pointer followed by those of the second: lengths add, and each position reads the token of the pointer it came from |
| JsonPointer.ComposeAssociative | src/Ropufu.Json/JsonPointer.cs:90-103 | composition is associative |
| JsonPointer.ToString | src/Ropufu.Json/JsonPointer.cs:257-265 | the loop writes "/" before every stored token |
| JsonPointer.TextCompose | src/Ropufu.Json/JsonPointer.cs:89 | the text of a composition is the concatenation of the texts, as in "/a/b" and "/c" giving "/a/b/c" |
| JsonPointer.TextConcat | src/Ropufu.Json/JsonPointer.cs:261-262 | the text of a concatenation of token lists is the concatenation of their texts |
| JsonPointer.Split | src/Ropufu.Json/JsonPointer.cs:73 | splitting at '/' gives at least one piece and no piece holds '/' |
| JsonPointer.JoinSplit | src/Ropufu.Json/JsonPointer.cs:73 | joining the pieces with '/' gives the text back |
| JsonPointer.SplitPrefix | src/Ropufu.Json/JsonPointer.cs:73 | a piece without '/' in front of more text is glued to the first piece of the rest |
| JsonPointer.SplitPiece | src/Ropufu.Json/JsonPointer.cs:73 | a text without '/' is one piece |
| JsonPointer.SplitJoin | src/Ropufu.Json/JsonPointer.cs:73 | splitting pieces joined by '/' gives the pieces back |
| JsonPointer.Parse | src/Ropufu.Json/JsonPointer.cs:56-82 | a parsed pointer stores only legitimate tokens |
| JsonPointer.TextOfNonEmpty | src/Ropufu.Json/JsonPointer.cs:257-265 | the text of a non-empty pointer is "/" followed by its tokens joined by '/' |
| JsonPointer.ParseText | src/Ropufu.Json/JsonPointer.cs:56-82 | parsing the text of a pointer gives the pointer back |
| JsonPointer.TextParse | src/Ropufu.Json/JsonPointer.cs:56-82 | writing a parsed pointer gives the parsed text back |
| JsonPointer.TryParse | src/Ropufu.Json/JsonPointer.cs:56-82 | the empty text is the root; a text not starting with '/' fails; otherwise the pieces after it are checked one by one and stored as they are |
| JsonPointer.EscapeExamples | src/Ropufu.Json/JsonPointer.cs:135-138 | "a/b" escapes to "a~1b" and "m~n" to "m~0n"; these decode back, while "a/b" and "m~n" do not decode |
| JsonPointer.SplitExample | src/Ropufu.Json/JsonPointer.cs:73 | "a/b" splits into "a" and "b" |
| JsonPointer.ParseExamples | src/Ropufu.Json.Tests/JsonPointerTest.cs:14-61 | the test pointers: "a/b" and "/m~n" are refused; "" has no token; "/a~1b" has one and "/a/b" two |
| JsonPointer.ParseRejects | src/Ropufu.Json.Tests/JsonPointerTest.cs:14-19 | "a/b" and "/m~n" are refused |
| JsonPointer.ParseAccepts | src/Ropufu.Json.Tests/JsonPointerTest.cs:43-61 | "/a~1b" parses to one token and "/a/b" to two |
| SchemaArena.Arena.constructor | src/Ropufu.Json/BasicSchema.static.cs:64-68 | the arena starts with the two singletons TrivialTrue and TrivialFalse, and is valid |
| SchemaArena.Arena.Add | src/Ropufu.Json/BasicSchema.cs:348-436 | a decoded schema finished by OnDeserialized: when one of its self matches raises, the fault is reported and nothing is added; otherwise the finished schema becomes the newest node and the arena stays valid |
| SchemaArena.Arena.MapChildSchemas | src/Ropufu.Json/BasicSchema.cs:124-136 | the loops compute the descendants map: the immediate schemas, then each one's descendants under its key |
| SchemaArena.Arena.MapLocalAnchors | src/Ropufu.Json/BasicSchema.static.cs:151-181 | the loop computes the anchor dictionary and the worklist, and logs one error per redefined anchor |
| SchemaArena.Arena.ResolveLocalReferences | src/Ropufu.Json/BasicSchema.static.cs:183-210 | the loop resolves the worklist in order, logging each reference left unresolved; a reference whose text does not parse raises |
| SchemaArena.Arena.IsCircular | src/Ropufu.Json/BasicSchema.static.cs:134-147 | the loop following resolved references reports a cycle exactly when the chain from the start comes back to a node it visited |
| SchemaArena.Arena.CheckCircularReferences | src/Ropufu.Json/BasicSchema.static.cs:130-149 | one error per listed schema whose chain of references comes back |
| SchemaArena.Arena.CommitOrRollBack | src/Ropufu.Json/BasicSchema.cs:177-196 | after the cycle check, success exactly when the log holds no error; on failure every worklist node loses its reference and keeps its unresolved flag, on success the flag is cleared |
| SchemaArena.Arena.MapRootAnchors | src/Ropufu.Json/BasicSchema.cs:161-169 | the schemas of the document, the root under the empty key last, and the anchor pass over them |
| SchemaArena.Arena.ResolveAndSettle | src/Ropufu.Json/BasicSchema.cs:171-196 | resolution, cycle check and commit or rollback, as the resolver functions say |
| SchemaArena.Arena.ResolveOwnedReferences | src/Ropufu.Json/BasicSchema.cs:161-196 | the steps after the early returns compute SchemaResolver.Resolve |
| SchemaArena.Arena.TryResolveLocalReferences | src/Ropufu.Json/BasicSchema.cs:150-197 | a schema with error diagnostics is refused with NotSupported and nothing changes; one owning no unresolved local reference succeeds and nothing changes; otherwise the arena and the log become what SchemaResolver.Resolve says, and the arena stays valid |
| SchemaResolver.MapChildSchemasMeaning | src/Ropufu.Json/BasicSchema.cs:121-136 | the schemas owned by a schema or any of its descendants are exactly the nodes reachable from it through immediate schemas, itself excepted |
| SchemaResolver.MapChildSchemasKeys | src/Ropufu.Json/BasicSchema.cs:128-133 | every key of the descendants map is a well-formed, non-empty pointer, the concatenation of the keys along the path |
| SchemaResolver.AnchorKeysAndErrors | src/Ropufu.Json/BasicSchema.static.cs:157-177 | the anchor dictionary holds "#" and one key "#" + name per declared anchor, every message is an error, and some error is logged iff an anchor is declared twice or is empty (so that its key repeats "#") |
| SchemaResolver.DistinctSnoc | src/Ropufu.Json/BasicSchema.static.cs:165 | one more anchor keeps the declared names pairwise different iff TryAdd finds its key new |
| SchemaResolver.AnchorTargets | src/Ropufu.Json/BasicSchema.static.cs:157-177 | "#" maps to the root address ""; "#" + name is a key iff some listed schema declares name; it maps to the address of the first schema that declares it |
| SchemaResolver.WorklistMeaning | src/Ropufu.Json/BasicSchema.static.cs:178-179 | the worklist holds exactly the listed schemas that are a local static or a local dynamic reference |
| SchemaResolver.SchemaAt | src/Ropufu.Json/BasicSchema.static.cs:198 | the lookup by address finds a listed schema whose pointer prints as that address, and finds none only when no listed pointer does |
| SchemaResolver.ResolveStepFrame | src/Ropufu.Json/BasicSchema.static.cs:189-208 | one worklist schema: only its resolved reference changes, and only to a listed schema; at most the one "could not be resolved" error is added, and it is added whenever the reference stays null |
| SchemaResolver.ResolveAllFrame | src/Ropufu.Json/BasicSchema.static.cs:183-210 | the pass changes nothing but the resolved references of worklist schemas, and each new target is a listed schema |
| SchemaResolver.ResolveAllReports | src/Ropufu.Json/BasicSchema.static.cs:205-208 | every message of the pass is an error, and unless the pointer parse threw, a worklist schema left unresolved has had an error logged |
| SchemaResolver.ThrownSticks | src/Ropufu.Json/BasicSchema.static.cs:191 | once JsonPointer.Parse throws on a reference, the rest of the worklist is not visited |
| SchemaResolver.SelfReferenceRevisits | src/Ropufu.Json.Tests/BasicSchemaTest.cs:248-255 | a schema whose reference resolves to itself is a circular reference |
| SchemaResolver.TwoCycleRevisits | src/Ropufu.Json.Tests/BasicSchemaTest.cs:257-264 | two schemas referring to each other are both circular references |
| SchemaResolver.ThreeCycleRevisits | src/Ropufu.Json.Tests/BasicSchemaTest.cs:266-273 | three schemas in a ring of references are all circular references |
| SchemaResolver.UnresolvedDoesNotRevisit | src/Ropufu.Json/BasicSchema.static.cs:136 | the chain from a schema without a resolved reference is not circular |
| SchemaResolver.RepeatRevisits | src/Ropufu.Json/BasicSchema.static.cs:138-143 | a schema met a second time along the chain makes the chain circular (HashSet.Add fails) |
| SchemaResolver.EndWithoutRepeat | src/Ropufu.Json/BasicSchema.static.cs:136-147 | a chain whose visited schemas are pairwise different and that reaches a schema without a resolved reference is not circular |
| SchemaResolver.CycleMessagesMeaning | src/Ropufu.Json/BasicSchema.static.cs:130-149 | at most one error per listed schema, every message an error, and some message iff the chain from some listed schema comes back to a schema already visited |
| SchemaResolver.RevisitsIgnoresFlags | src/Ropufu.Json/BasicSchema.cs:192-193 | whether a chain is circular depends on resolved references only, not on the unresolved flags the commit clears |
| SchemaResolver.SettledFailed | src/Ropufu.Json/BasicSchema.cs:180-188 | rolling back forgets every target the pass set: the result is the same as rolling back the arena before the pass |
| SchemaResolver.ResolveSteps | src/Ropufu.Json/BasicSchema.cs:161-196 | the outcome of TryResolveLocalReferences is the commit or rollback of the anchor pass, the resolution pass and the cycle check, run in that order |
| SchemaResolver.Worklist | src/Ropufu.Json/BasicSchema.static.cs:158-179 | every schema on the worklist is a node of the arena |
| SchemaResolver.FinishMeaning | src/Ropufu.Json/BasicSchema.cs:177-196 | for any passes with the proved frame and error facts: on failure every worklist schema is unresolved and flagged and nothing else changed; on success anchors are distinct, no listed chain is circular, and every worklist schema has a target and lost only its flag |
| SchemaResolver.ResolveAllOrNothing | src/Ropufu.Json/BasicSchema.cs:150-197 | all or nothing: resolution fails iff an anchor repeats, a reference has no target or a chain is circular; on failure the worklist is rolled back and flagged and every other schema is unchanged; on success every worklist schema has a target, no chain is circular and only the flags of the worklist changed |
| SchemaResolver.ResolvedClosed | src/Ropufu.Json/BasicSchema.static.cs:183-210 | after the resolution pass every resolved reference is still a node of the arena |
| SchemaResolver.SingletonsNotListed | src/Ropufu.Json/BasicSchema.static.cs:178-179 | TrivialTrue and TrivialFalse are never on a worklist, as they hold no reference |
| SchemaResolver.SettledKeepsValid | src/Ropufu.Json/BasicSchema.cs:180-195 | committing or rolling back keeps the arena well formed |
| SchemaResolver.PassKeepsValid | src/Ropufu.Json/BasicSchema.static.cs:199 | a pass that points worklist references only at listed schemas keeps the arena well formed |
| SchemaResolver.ResolveKeepsValid | src/Ropufu.Json/BasicSchema.cs:150-197 | resolution keeps the arena well formed, whatever its outcome |
| SchemaLifecycle.ShapesAgree | src/Ropufu.Json/BasicSchema.cs:363-366 | clearing const, enum and examples changes no sub-schema and no reference of the schema |
| SchemaLifecycle.ProbeClosed | src/Ropufu.Json/BasicSchema.cs:370 | the schema under construction, matched against itself, can stand as the newest node of a closed arena |
| SchemaLifecycle.SelfMatchGuards | src/Ropufu.Json/BasicSchema.cs:210-217 | a self match raises as the guards of IsMatch say: Malformed once an error is logged, then External, then Unresolved |
| SchemaLifecycle.PermissibleOnlyAppends | src/Ropufu.Json/BasicSchema.cs:378-385 | the enum loop only appends to the log, and only "Permissible value ... does not pass schema validation." errors about its own values |
| SchemaLifecycle.PermissibleRejectsAtMostLast | src/Ropufu.Json/BasicSchema.cs:210-211 | since the first logged error makes every further self match raise, an enum loop that finishes rejects at most one value, the last, and only when no error was logged before it |
| SchemaLifecycle.ValuesOnlyAppend | src/Ropufu.Json/BasicSchema.cs:360-387 | checking const and enum only appends to the log |
| SchemaLifecycle.FinishedShape | src/Ropufu.Json/BasicSchema.cs:39-71 | a finished schema has the flags and immediate schemas Initialize computes, its keywords without examples, no resolved reference, and a log that starts with what came before and ends with the children's messages |
| SchemaLifecycle.DeserializedShape | src/Ropufu.Json/BasicSchema.cs:348-436 | when OnDeserialized completes, the schema's log starts with what the three blocks logged |
| SchemaLifecycle.NoValuesNeverThrow | src/Ropufu.Json/BasicSchema.cs:369-387 | without const and enum no self match happens, so OnDeserialized never raises |
| SchemaLifecycle.MalformedValuesThrow | src/Ropufu.Json/BasicSchema.cs:210-211 | a schema whose blocks logged an error and that has const or a non-empty enum cannot be read: the first self match raises Malformed |
| SchemaLifecycle.ReferenceWithConstantThrows | src/Ropufu.Json/BasicSchema.cs:216-217 | a local reference with const cannot be read: it is not resolved yet, so the self match raises Unresolved |
| SchemaLifecycle.RejectedConstantLogged | src/Ropufu.Json/BasicSchema.cs:369-385 | a constant the schema rejects is logged as an error of the schema; with a non-empty enum the enum loop then raises Malformed |
| SchemaLifecycle.EmptyEnumWithConstant | src/Ropufu.Json/BasicSchema.cs:389-396 | const together with an empty enum logs "Constant value is not present in permissible value list.", an error |
| SchemaLifecycle.DeprecationWarnings | src/Ropufu.Json/BasicSchema.cs:406-428 | the deprecated keywords draw warnings only, and none iff definitions, dependencies, $recursiveAnchor and $recursiveRef are all absent |
| SchemaLifecycle.ChildMessagesMeaning | src/Ropufu.Json/BasicSchema.cs:434-435 | aggregation keeps every message of every immediate schema, re-addressed under its key, and brings in no other |
| SchemaLifecycle.RelocatedLevels | src/Ropufu/Verbose.cs:39-45 | re-addressing messages keeps their levels |
| SchemaLifecycle.ChildLevels | src/Ropufu.Json/BasicSchema.cs:434-435 | the aggregate has a message at a level iff some immediate schema has one |
| SchemaLifecycle.ChildErrorsReachParent | src/Ropufu.Json/BasicSchema.cs:432-435 | an error of any immediate schema is an error of the finished schema |
| SchemaLifecycle.ChildOwnsExtend | src/Ropufu.Json/BasicSchema.cs:61-67 | the reference flags gathered from the immediate schemas do not change when a newer node joins the arena |
| SchemaLifecycle.AppendValid | src/Ropufu.Json/BasicSchema.cs:39-71 | a node Initialize could have produced from the arena can join it, and the arena stays valid |
| SchemaLifecycle.FinishedValid | src/Ropufu.Json/BasicSchema.cs:348-436 | a schema OnDeserialized finishes can join the arena, and the arena stays valid |
| SchemaLifecycle.LogBlocks | src/Ropufu.Json/BasicSchema.cs:352-358 | the applicator, core and validation blocks append their messages, in that order |
| SchemaLifecycle.ValidateConstant | src/Ropufu.Json/BasicSchema.cs:360-376 | the const check logs the rejection or reports the fault the self match raised, as the specification function says |
| SchemaLifecycle.ValidatePermissible | src/Ropufu.Json/BasicSchema.cs:378-387 | the enum loop logs one error per rejected value, in order, or stops at the first fault a self match raises |
| SchemaLifecycle.LogRemainingChecks | src/Ropufu.Json/BasicSchema.cs:389-428 | appends the empty-enum error, then the deprecation warnings |
| SchemaLifecycle.DeprecationSplit | src/Ropufu.Json/BasicSchema.cs:406-428 | the deprecation warnings are those for definitions and dependencies, then those for $recursiveAnchor and $recursiveRef |
| SchemaLifecycle.PresentValues | src/Ropufu/Verbose.cs:57-66 | a child's messages, read as a list without null entries, are all copied by LogRange |
| SchemaLifecycle.AggregateChildMessages | src/Ropufu.Json/BasicSchema.cs:434-435 | the loop appends each immediate schema's messages, re-addressed under its key |
| SchemaLifecycle.ValidateValues | src/Ropufu.Json/BasicSchema.cs:360-387 | const, then each enum value, checked against the schema with those keywords removed |
| SchemaLifecycle.LogFinalMessages | src/Ropufu.Json/BasicSchema.cs:389-435 | appends the empty-enum error, the deprecation warnings and the children's messages |
| SchemaLifecycle.OnDeserialized | src/Ropufu.Json/BasicSchema.cs:348-436 | the method, from Initialize to the aggregation, yields the finished schema or the fault of a self match, exactly as the specification function Deserialized |
| SchemaNodes.Initialized | src/Ropufu.Json/BasicSchema.cs:39-71 | Initialize clears the messages and the resolved reference, maps the immediate schemas, sets each ownership flag iff the schema itself or an immediate schema has it, and the unresolved flag iff the static or the dynamic flag is set |
| SchemaNodes.ImmediateBelow | src/Ropufu.Json/BasicSchema.static.cs:79-128 | every immediate schema of a schema is a node built before it |
| SchemaNodes.Initialize | src/Ropufu.Json/BasicSchema.cs:39-71 | the method, with its loop over the immediate schemas, computes exactly Initialized |
| SchemaNodes.ChildOwnsSnoc | src/Ropufu.Json/BasicSchema.cs:62-67 | one more immediate schema ORs its flags into those gathered so far |
| SchemaNodes.BelowMonotone | src/Ropufu.Json/BasicSchema.static.cs:79-128 | sub-schemas already in an arena are still in it once the arena grows |
| SchemaNodes.ValidIsClosed | src/Ropufu.Json/BasicSchema.cs:118-142 | in a valid arena every sub-schema and every resolved reference names a node of the arena |
| SchemaNodes.ReachesBelow | src/Ropufu.Json/BasicSchema.cs:61 | a descendant of a schema was built no later than the schema itself |
| SchemaNodes.OwnsMeaning | src/Ropufu.Json/BasicSchema.cs:26-33 | a schema owns a static, dynamic or external reference iff the schema itself or one of its descendants is a reference of that kind |
| SchemaNodes.TrivialNodesInitialized | src/Ropufu.Json/BasicSchema.static.cs:64-65 | TrivialTrue and TrivialFalse are schemas without keywords or children, differing only in their trivial flag |
| SchemaNodes.SingletonsValid | src/Ropufu.Json/BasicSchema.static.cs:64-68 | the arena holding only the two singletons is valid |
| SchemaBlocks.IdExamples | src/Ropufu.Json/BasicSchema.Core.cs:8 | the $id pattern accepts no fragment but a lone trailing '#', and, through .NET's `$`, one final line feed |
| SchemaBlocks.AnchorExamples | src/Ropufu.Json/BasicSchema.Core.cs:9 | the anchor pattern accepts plain names, rejects the empty name, a leading digit and an inner space, and lets a final line feed through |
| SchemaBlocks.InitializeCoreBlock | src/Ropufu.Json/BasicSchema.Core.cs:47-76 | appends, in order, the errors about $id, $schema, $ref, $dynamicRef, $anchor, $dynamicAnchor and each $vocabulary key, and changes nothing else |
| SchemaBlocks.LogIdErrors | src/Ropufu.Json/BasicSchema.Core.cs:49-56 | $id must be a URI reference and must match the $id pattern, one error per failed check |
| SchemaBlocks.LogReferenceErrors | src/Ropufu.Json/BasicSchema.Core.cs:58-65 | $schema must be an absolute URI, $ref and $dynamicRef URI references |
| SchemaBlocks.LogAnchorErrors | src/Ropufu.Json/BasicSchema.Core.cs:67-71 | $anchor and $dynamicAnchor must match the anchor pattern |
| SchemaBlocks.LogVocabularyErrors | src/Ropufu.Json/BasicSchema.Core.cs:73-75 | one error per $vocabulary key that is not a URI reference |
| SchemaBlocks.CoreMessagesSplit | src/Ropufu.Json/BasicSchema.Core.cs:47-76 | the core block's messages are the $id, reference, anchor and vocabulary messages, in that order |
| SchemaBlocks.VocabularyIff | src/Ropufu.Json/BasicSchema.Core.cs:73-75 | the vocabulary check logs only errors, and none iff every key is a URI reference |
| SchemaBlocks.CoreIff | src/Ropufu.Json/BasicSchema.Core.cs:47-76 | the core block logs only errors, and none iff every core keyword present is well formed |
| SchemaBlocks.InitializeApplicatorBlock | src/Ropufu.Json/BasicSchema.Applicator.cs:67-91 | appends, in order, the patternProperties errors, the empty-combinator errors and the conditional warning, and changes nothing else |
| SchemaBlocks.LogPatternErrors | src/Ropufu.Json/BasicSchema.Applicator.cs:69-71 | one error per patternProperties key that is not a regular expression |
| SchemaBlocks.LogCombinatorErrors | src/Ropufu.Json/BasicSchema.Applicator.cs:73-81 | allOf, anyOf and oneOf, when present, must not be empty |
| SchemaBlocks.LogConditionalWarnings | src/Ropufu.Json/BasicSchema.Applicator.cs:83-90 | a then or else without if, or an if without both, draws a warning |
| SchemaBlocks.PatternIff | src/Ropufu.Json/BasicSchema.Applicator.cs:69-71 | the pattern check logs only errors, and none iff every key is a regular expression |
| SchemaBlocks.ApplicatorErrorsIff | src/Ropufu.Json/BasicSchema.Applicator.cs:67-91 | the applicator block logs an error iff a patternProperties key is not a regular expression or a combinator list is empty |
| SchemaBlocks.AllErrorsLevel | src/Ropufu/Verbose.cs:18-25 | a log of errors only has an error iff it is not empty |
| SchemaBlocks.ConditionalWarnings | src/Ropufu.Json/BasicSchema.Applicator.cs:83-90 | at most one conditional warning, logged exactly when if and then/else do not come together, and never an error |
| SchemaKeywords.ReferenceKinds | src/Ropufu.Json/BasicSchema.cs:103-116 | a present $ref is a local static reference iff it is not an external one; a schema with neither reference is no reference at all; local static and local dynamic together are not external |
| SchemaKeywords.KeywordPointer | src/Ropufu.Json/BasicSchema.static.cs:11-15 | the pointer to a keyword has one token, the keyword's name |
| SchemaKeywords.KeywordPointerEscaped | src/Ropufu.Json/BasicSchema.static.cs:11-15 | for a name without '~' or '/', the keyword pointer is the parsed pointer with that one token, and reading its token back gives the name |
| SchemaKeywords.DecimalText | src/Ropufu.Json/BasicSchema.static.cs:104 | index.ToString() is a non-empty string of decimal digits |
| SchemaKeywords.DecimalTextInjective | src/Ropufu.Json/BasicSchema.static.cs:104 | different list indices give different tokens |
| SchemaKeywords.DecimalTextExamples | src/Ropufu.Json/BasicSchema.static.cs:104 | 0, 7 and 42 print as "0", "7" and "42" |
| SchemaKeywords.MemberPointer | src/Ropufu.Json/BasicSchema.static.cs:104-122 | the address of a list item or dictionary member has two tokens, the first naming the keyword |
| SchemaKeywords.MemberPointerEscaped | src/Ropufu.Json/BasicSchema.static.cs:104-122 | that address is well formed and its tokens read back as the keyword and the index or key |
| SchemaKeywords.SingleValues | src/Ropufu.Json/BasicSchema.static.cs:83-89 | the eleven schema-valued properties |
| SchemaKeywords.InitializeImmediateSchemas | src/Ropufu.Json/BasicSchema.static.cs:79-128 | the three loops build exactly the immediate-schema map: single properties, then lists, then dictionaries, nulls skipped |
| SchemaKeywords.AddSingles | src/Ropufu.Json/BasicSchema.static.cs:83-89 | each non-null schema-valued property, under its keyword |
| SchemaKeywords.AddLists | src/Ropufu.Json/BasicSchema.static.cs:91-108 | each non-null list, in order, contributes its entries |
| SchemaKeywords.AddList | src/Ropufu.Json/BasicSchema.static.cs:98-107 | the non-null items of one list, each under the count of non-null items before it |
| SchemaKeywords.AddMaps | src/Ropufu.Json/BasicSchema.static.cs:110-125 | each non-null dictionary, in order, contributes its entries |
| SchemaKeywords.AddMap | src/Ropufu.Json/BasicSchema.static.cs:117-124 | the non-null members of one dictionary, each under its key |
| SchemaKeywords.SingleEntriesIds | src/Ropufu.Json/BasicSchema.static.cs:83-89 | the single entries name exactly the non-null single properties |
| SchemaKeywords.ListEntriesIds | src/Ropufu.Json/BasicSchema.static.cs:98-107 | the entries of a list name exactly its non-null items |
| SchemaKeywords.MapEntriesIds | src/Ropufu.Json/BasicSchema.static.cs:117-124 | the entries of a dictionary name exactly its non-null members |
| SchemaKeywords.ImmediateIsChildren | src/Ropufu.Json/BasicSchema.static.cs:79-128 | the immediate schemas are exactly the non-null schemas the properties hold |
| SchemaKeywords.ListEntriesIndices | src/Ropufu.Json/BasicSchema.static.cs:98-107 | the k-th entry of a list is its k-th non-null item under the token k: null items are skipped and not counted |
| SchemaKeywords.SlotIndices | src/Ropufu.Json/BasicSchema.static.cs:101-102 | the positions of the non-null items of a list |
| SchemaKeywords.ImmediatePointers | src/Ropufu.Json/BasicSchema.static.cs:83-125 | every key of the map is a well-formed pointer of one or two tokens |
| SchemaKeywords.SlotNamesPlain | src/Ropufu.Json/BasicSchema.static.cs:51 | the keyword names that address immediate schemas need no escaping |
| SchemaKeywords.ImmediateOfTrivial | src/Ropufu.Json/BasicSchema.static.cs:64-65 | the singletons own no schema |
| SchemaKeywords.ImmediateOfDefaults | src/Ropufu.Json/BasicSchema.Applicator.cs:13-37 | every schema the empty schema {} owns is TrivialTrue |
| SchemaKeywords.BelowIffChildren | src/Ropufu.Json/BasicSchema.static.cs:79-128 | all sub-schemas below a bound iff every child is below it |
| SchemaValidation.TryGetLowerBound | src/Ropufu.Json/BasicSchema.Validation.cs:258-285 | there is a lower bound iff minimum or exclusiveMinimum is present; an exclusive bound is exclusiveMinimum's value, an inclusive one minimum's |
| SchemaValidation.TryGetUpperBound | src/Ropufu.Json/BasicSchema.Validation.cs:287-314 | there is an upper bound iff maximum or exclusiveMaximum is present; an exclusive bound is exclusiveMaximum's value, an inclusive one maximum's |
| SchemaValidation.LowerBoundMeaning | src/Ropufu.Json/BasicSchema.Validation.cs:258-285 | the single lower bound chosen accepts exactly the values both lower keywords accept |
| SchemaValidation.UpperBoundMeaning | src/Ropufu.Json/BasicSchema.Validation.cs:287-314 | the single upper bound chosen accepts exactly the values both upper keywords accept |
| SchemaValidation.MultipleMeaning | src/Ropufu.Json/BasicSchema.Validation.cs:360-362 | a value with zero remainder is a whole number of times multipleOf, and every such value has zero remainder |
| SchemaValidation.NumberMeaning | src/Ropufu.Json/BasicSchema.Validation.cs:358-381 | a number passes iff it is a multiple of multipleOf (when present) and satisfies each of the four bound keywords |
| SchemaValidation.IntegerMeaning | src/Ropufu.Json/BasicSchema.Validation.cs:333-356 | a 64-bit integer passes iff its exact value is a multiple of multipleOf (when present) and satisfies each of the four bound keywords |
| SchemaValidation.IntegerMultiple | src/Ropufu.Json/BasicSchema.Validation.cs:335-337 | for a whole, non-zero multipleOf k, an integer i is a multiple iff i % k == 0 |
| SchemaValidation.Utf16Length | src/Ropufu.Json/BasicSchema.Validation.cs:385-389 | `string.Length` counts UTF-16 code units: between the character count and twice it, and equal to the character count iff every character is in the Basic Multilingual Plane |
| SchemaValidation.Utf16Concat | src/Ropufu.Json/BasicSchema.Validation.cs:385-389 | the code units of a concatenation add up |
| SchemaValidation.StringMeaning | src/Ropufu.Json/BasicSchema.Validation.cs:383-395 | a passing string matches the pattern, has at most maxLength characters and at least half of minLength; for text in the Basic Multilingual Plane it passes iff its character count is within minLength and maxLength and the pattern matches |
| SchemaValidation.AstralCharacterCountsTwice | src/Ropufu.Json/BasicSchema.Validation.cs:388-389 | the one-character string of U+1F600 is two code units long and fails maxLength 1 |
| SchemaValidation.IsPermissible | src/Ropufu.Json/BasicSchema.Validation.cs:316-331 | the loop over enum that stops at the first equivalent value computes Permissible: against const when present, else against enum when present, else true |
| SchemaValidation.PermissibleExtremes | src/Ropufu.Json/BasicSchema.Validation.cs:316-331 | an empty enum without const admits nothing; with neither everything is admitted; const admits itself |
| SchemaValidation.DeclaredAmong | src/Ropufu.Json/BasicSchema.Validation.cs:20-22 | the types counted are exactly those among the enumeration's values whose bit is set |
| SchemaValidation.TypeCount | src/Ropufu.Json/BasicSchema.Validation.cs:14-25 | the loop counts the declared types |
| SchemaValidation.TypeCountBounds | src/Ropufu.Json/BasicSchema.Validation.cs:14-25 | at most seven types are declared, and Missing declares none |
| SchemaValidation.TypeCountSingle | src/Ropufu.Json/BasicSchema.Validation.cs:14-25 | "type": "integer" declares exactly the one type |
| SchemaValidation.DistinctMessages | src/Ropufu.Json/BasicSchema.Validation.cs:176-177 | a name list draws an error iff it repeats a name |
| SchemaValidation.InitializeValidationBlock | src/Ropufu.Json/BasicSchema.Validation.cs:104-182 | appends, in order, the multipleOf, bound, interval, count and name-list messages, and changes nothing else |
| SchemaValidation.ValidateLowerBound | src/Ropufu.Json/BasicSchema.Validation.cs:184-206 | one warning when minimum and exclusiveMinimum are both present, naming the one that wins |
| SchemaValidation.ValidateUpperBound | src/Ropufu.Json/BasicSchema.Validation.cs:208-230 | one warning when maximum and exclusiveMaximum are both present, naming the one that wins |
| SchemaValidation.ValidateInterval | src/Ropufu.Json/BasicSchema.Validation.cs:232-256 | an error when the lower bound exceeds the upper, or when they meet and one is exclusive |
| SchemaValidation.LogWhen | src/Ropufu.Json/BasicSchema.Validation.cs:118-119 | a guarded Log appends its message iff the guard holds |
| SchemaValidation.ValidateCounts | src/Ropufu.Json/BasicSchema.Validation.cs:118-174 | the string-length, item, contains and property count messages, in order |
| SchemaValidation.ValidateStringCounts | src/Ropufu.Json/BasicSchema.Validation.cs:118-127 | maxLength and minLength non-negative, maxLength not below minLength |
| SchemaValidation.ValidateItemCounts | src/Ropufu.Json/BasicSchema.Validation.cs:129-138 | maxItems and minItems non-negative, maxItems not below minItems |
| SchemaValidation.ValidateContainsCounts | src/Ropufu.Json/BasicSchema.Validation.cs:140-163 | maxContains and minContains non-negative, maxContains not below minContains, and a warning for either given without a contains schema |
| SchemaValidation.ValidatePropertyCounts | src/Ropufu.Json/BasicSchema.Validation.cs:165-174 | maxProperties and minProperties non-negative, maxProperties not below minProperties |
| SchemaValidation.ValidateRequired | src/Ropufu.Json/BasicSchema.Validation.cs:176-181 | required must be distinct, and so must every dependentRequired list, each reported at its list |
| SchemaValidation.LogUnlessDistinct | src/Ropufu.Json/BasicSchema.Validation.cs:176-177 | one error at the given pointer iff the names repeat |
| SchemaValidation.IntervalErrorIff | src/Ropufu.Json/BasicSchema.Validation.cs:232-256 | the interval check logs only errors, and logs one iff no number satisfies all four bound keywords |
| SchemaValidation.BoundWarnings | src/Ropufu.Json/BasicSchema.Validation.cs:184-230 | at most one warning per pair of bound keywords, exactly when both are present, and never an error |
| SchemaValidation.ContainsCountErrorsIff | src/Ropufu.Json/BasicSchema.Validation.cs:140-163 | the contains counts raise an error iff a count is negative or the maximum is below the minimum |
| SchemaValidation.CountErrorsIff | src/Ropufu.Json/BasicSchema.Validation.cs:118-174 | the count checks raise an error iff a count keyword is negative or a maximum is below its minimum |
| SchemaValidation.DependentRequiredIff | src/Ropufu.Json/BasicSchema.Validation.cs:179-181 | dependentRequired logs nothing iff every list is distinct, and only errors otherwise |
| SchemaValidation.RequiredErrorsIff | src/Ropufu.Json/BasicSchema.Validation.cs:176-181 | the name-list checks raise an error iff some list repeats a name |
| SchemaValidation.ValidationErrorsIff | src/Ropufu.Json/BasicSchema.Validation.cs:104-182 | the validation block marks a schema malformed iff multipleOf is not positive, the bounds leave no number, a count is out of range, or a name list repeats |
| SchemaValidation.BoundExamples | src/Ropufu.Json.Tests/BasicSchemaTest.cs:145-176 | minimum 17 admits 17 and above but not 16 or 16.9; exclusiveMaximum 29 admits 28 and 28.9 but not 29 or 30.1 |
| SchemaValidation.IntervalExamples | src/Ropufu.Json/BasicSchema.Validation.cs:240-256 | minimum 3 with exclusiveMaximum 3 leaves nothing; minimum 4 with maximum 3 is inverted; minimum 3 with maximum 3 is accepted |
| SchemaMatcher.Then | src/Ropufu.Json/BasicSchema.cs:225-292 | an early-returning check passes the match on iff it succeeds, and a raised exception propagates |
| SchemaMatcher.BelowSlots | src/Ropufu.Json/BasicSchema.cs:225-272 | every sub-schema IsMatch calls on is a node of the arena |
| SchemaMatcher.KeywordsOf | src/Ropufu.Json/BasicSchema.cs:202-208 | the keywords IsMatch reads are the node's, and name nodes of the arena |
| SchemaMatcher.Match | src/Ropufu.Json/BasicSchema.cs:208-295 | the misuse guards in order: Malformed when the schema has an error, then External, then Unresolved; then TrivialTrue matches everything and TrivialFalse nothing |
| SchemaMatcher.TryValidateArray | src/Ropufu.Json/BasicSchema.Validation.cs:403-483 | the counts, the pairwise test and the loops over hasBeenEvaluated compute exactly the array outcome |
| SchemaMatcher.CheckPrefix | src/Ropufu.Json/BasicSchema.Validation.cs:429-437 | the prefixItems loop stops at the first failure or fault; when it passes, exactly the first prefixItems positions are marked evaluated |
| SchemaMatcher.CheckItems | src/Ropufu.Json/BasicSchema.Validation.cs:439-448 | the items loop from the offset; when it passes, every position is marked evaluated |
| SchemaMatcher.CountContains | src/Ropufu.Json/BasicSchema.Validation.cs:450-461 | countContains is the number of matching positions, and exactly those are newly marked evaluated |
| SchemaMatcher.ContainsStep | src/Ropufu.Json/BasicSchema.Validation.cs:454-461 | one step of the contains loop: a position joins the hits iff it matches |
| SchemaMatcher.CheckUnevaluated | src/Ropufu.Json/BasicSchema.Validation.cs:470-480 | every position not marked evaluated must match unevaluatedItems |
| SchemaMatcher.AreDistinct | src/Ropufu.Json/BasicSchema.Validation.cs:415-424 | the double loop passes iff no item is equivalent to a later one |
| SchemaMatchFacts.AllFromMeaning | src/Ropufu.Json/BasicSchema.cs:241-246 | allOf passes iff every member matches |
| SchemaMatchFacts.PositionsStep | src/Ropufu.Json/BasicSchema.cs:264-266 | counting one more position adds one exactly when it qualifies |
| SchemaMatchFacts.CountFromThrows | src/Ropufu.Json/BasicSchema.cs:252-254 | the anyOf and oneOf loops visit every member, so they raise iff some member's match raises |
| SchemaMatchFacts.CountFromMeaning | src/Ropufu.Json/BasicSchema.cs:262-266 | countGood is the number of members that match |
| SchemaMatchFacts.MatchingFromStep | src/Ropufu.Json/BasicSchema.cs:264-266 | one more member adds one to the matching count exactly when it matches |
| SchemaMatchFacts.PrefixFromMeaning | src/Ropufu.Json/BasicSchema.Validation.cs:429-437 | the prefixItems loop passes iff the array is long enough and each position matches its schema |
| SchemaMatchFacts.PrefixPastEnd | src/Ropufu.Json/BasicSchema.Validation.cs:432 | more prefixItems than array items, all present ones matching, raises ArgumentOutOfRange, which the list indexer throws at list[offset] |
| SchemaMatchFacts.ItemsFromMeaning | src/Ropufu.Json/BasicSchema.Validation.cs:439-448 | the items loop passes iff every position from the offset on matches |
| SchemaMatchFacts.ContainsFromMeaning | src/Ropufu.Json/BasicSchema.Validation.cs:450-461 | the contains loop raises iff some item's match raises, and otherwise yields exactly the matching positions |
| SchemaMatchFacts.UnevaluatedFromMeaning | src/Ropufu.Json/BasicSchema.Validation.cs:470-480 | the unevaluatedItems loop passes iff every unmarked position matches |
| SchemaMatchFacts.TypeFromMeaning | src/Ropufu.Json/BasicSchema.cs:278-294 | the type loop succeeds iff some tried kind matches and every tried kind before it cleanly fails |
| SchemaMatchFacts.PrefixMeaning | src/Ropufu.Json/BasicSchema.Validation.cs:429-437 | prefixItems passes iff the array holds at least as many items and each matches its schema |
| SchemaMatchFacts.ItemsMeaning | src/Ropufu.Json/BasicSchema.Validation.cs:439-448 | items, when present, passes iff every later position matches |
| SchemaMatchFacts.HitsMeaning | src/Ropufu.Json/BasicSchema.Validation.cs:450-461 | contains, when present, raises iff some item's match raises, and otherwise hits exactly the matching positions |
| SchemaMatchFacts.UnevaluatedMeaning | src/Ropufu.Json/BasicSchema.Validation.cs:470-480 | unevaluatedItems, when present, passes iff every unevaluated position matches |
| SchemaMatchFacts.ArrayMeaning | src/Ropufu.Json/BasicSchema.Validation.cs:403-483 | an array passes iff the item counts hold, the items are distinct when required, prefixItems and items match, the contains count is within bounds and unevaluated positions match |
| SchemaMatchFacts.ConditionMeaning | src/Ropufu.Json/BasicSchema.cs:228-239 | if/then/else passes iff then matches when if does, and else matches when it does not |
| SchemaMatchFacts.AllOfMeaning | src/Ropufu.Json/BasicSchema.cs:241-246 | allOf, when present, passes iff every member matches |
| SchemaMatchFacts.AnyOfMeaning | src/Ropufu.Json/BasicSchema.cs:248-258 | anyOf, when present, passes iff no member raises and at least one matches |
| SchemaMatchFacts.OneOfMeaning | src/Ropufu.Json/BasicSchema.cs:260-270 | oneOf, when present, passes iff no member raises and exactly one matches |
| SchemaMatchFacts.ChecksMeaning | src/Ropufu.Json/BasicSchema.cs:225-294 | the checks pass iff the reference, conditional, allOf, anyOf, oneOf, not, enum/const and type conditions all hold |
| SchemaMatchFacts.MatchMeaning | src/Ropufu.Json/BasicSchema.cs:208-295 | a well-formed, resolved, non-trivial schema matches a value iff all its checks hold |
| SchemaMatchFuel.MatchFuelMonotone | src/Ropufu.Json/BasicSchema.cs:208-295 | in a closed arena, once matching ends without running out of fuel, more fuel gives the same outcome: the fuel bound only cuts off the recursion, it never changes an answer or a raised fault |
| SchemaMatchFuel.ChecksFuel | src/Ropufu.Json/BasicSchema.cs:225-294 | the same for the sequence of checks after the trivial-schema shortcut |
| SchemaMatchFuel.SelfMatchFuel | src/Ropufu.Json/BasicSchema.cs:369-387 | the same for the self match of a `const` or `enum` value against the schema being finished |
| SchemaMatchFuel.DeserializedFuelMonotone | src/Ropufu.Json/BasicSchema.cs:348-436 | when OnDeserialized's self matches do not run out of fuel, more fuel finishes the schema the same way, or raises the same fault |
| SchemaMatchExamples.DecodedPlain | src/Ropufu.Json/BasicSchema.cs:39-71 | a schema with only validation keywords owns no reference, has no diagnostics and sits in a closed arena |
| SchemaMatchExamples.NoPermissibleValues | src/Ropufu.Json.Tests/BasicSchemaTest.cs:131-142 | {"enum": []} matches no value: not 17, 2.9, "", null or false |

## Left out

- The JSON token reader is not modelled: `Utf8JsonReader`, the converters' `Read`/`MakeParser` plumbing, `TryGetNonFlagEnum`/`TryGetFlagEnum` and `JsonExtenders.FastForwardToEndArray`/`FastForwardToEndObject`. The model starts from decoded values: `JsonElements.JsonValue` and `SchemaKeywords.Keywords`.
- The decoder's reading of particular documents is therefore not modelled either. This includes `$defs` with a `null` member, and the bare `true` and `false` documents that decode to the singletons.
- Reflection is given as a parameter. The static constructor that discovers the schema getters is represented by fixed keyword slots in `SchemaKeywords`. The enum name table is a parameter of `NamedEnum`.
- Regular expressions, URI validity and the raw text of a JSON element are oracles in `SchemaValidation.Env`. This includes `TextExtenders.IsRegex`.
- `CodeGeneration.CodeLine.Format`: composite formatting is an oracle function that may report a format error.
- SchemaMatcher.Match: the source's `IsMatch` recursion has no termination argument. The model bounds it by `fuel` and returns `OutOfFuel` when the bound is reached. `SchemaMatchFuel.MatchFuelMonotone` shows the bound is only a bound: any outcome other than `OutOfFuel` stays the same with more fuel.
- SchemaMatcher.Match: matching an object instance reaches the source's `TryValidateObject`, which raises `NotImplementedException`. The model returns `NotImplemented` there. Property keywords therefore have no matching semantics.
- JsonElements.TryGetDouble: a literal whose magnitude rounds to infinity fails, as in the source. Every other literal reads as its exact value, not rounded to the nearest double, so two literals that round to the same double are told apart.
- JsonElements.TryGetDecimal: a literal within the decimal range reads as its exact value. System.Decimal keeps at most 28 or 29 significant digits and rounds the rest, so `0.1000000000000000000000000000001` reads as `0.1` in the source but not in the model.
- JsonExtenders.NumbersEquivalent: because of the two readings above, numbers that round to the same decimal or double are equivalent in the source but not in the model. Two numbers beyond the double range are compared by value, where the source compares their raw text.
- SchemaValidation.IntegerMeaning: the model tests a 64-bit integer's exact value. The source's `TryValidate(long)` converts the long to the nearest double before the bound and `multipleOf` tests, so the two can differ above 2^53 in magnitude. For example, with `maximum` 2^53 the source rounds 2^53+1 down and accepts it, while the model rejects it.
- SchemaValidation: the "Finite number expected." messages of the numeric keywords are left out. A schema's keyword values are decoded numbers, and the model reads them as exact reals, never infinite.
- UnorderedSample.Enumerator.Current: returns a copy of the indices. The source returns a read-only view of its index array, and a view taken earlier shows the indices after later `MoveNext` and `Reset` calls.
- TextExtenders.ToSnakeCase: letters are the ASCII letters, and case conversion is ASCII only. The source uses .NET's Unicode `char.IsLower`, `char.IsUpper` and `char.ToLowerInvariant`, so `"Éclair"` becomes `"éclair"` there and `"_clair"` here. Characters are Unicode scalar values, not UTF-16 code units: a character outside the Basic Multilingual Plane is one non-letter here and two in the source, so without `CollapseUnderscores` it yields one underscore here and two there. `SnakeCaseAlphabet`, `SnakeCaseKeepsLetters` and `LowerLetters` are about this ASCII reading.
- TextExtenders.CapitalizeFirstLetter: upper-cases only an ASCII first letter. The source's `char.ToUpperInvariant` also turns `"élan"` into `"Élan"`. The source upper-cases the first UTF-16 unit, so a first character outside the Basic Multilingual Plane is unchanged in both.
- TextExtenders.ToLower: maps only `A`-`Z`. The source's `char.ToLowerInvariant` lowers every Unicode upper-case letter.
- TextExtenders.ToUpper: maps only `a`-`z`. The source's `char.ToUpperInvariant` raises every Unicode lower-case letter.
- CodeGeneration.CodeBuilder.Append: tab levels are unbounded integers. In C# `TabLevel + tabOffset` (also in `AppendLine` and `AppendLines`) and `TabSize * TabOffset` in `ToText` are unchecked 32-bit `int` arithmetic and wrap past 2^31 - 1. The model does not wrap.
- SchemaBlocks: the core block logs each error at `s_jsonNames[...]`, and `OnDeserialized` logs at `s_jsonPointers[...]`. Both are keyword addresses taken from tables built by reflection. The model uses `KeywordPointer` of the keyword's name in both places. The tables themselves are not part of this model.
- SchemaResolver.MapChildSchemas: the source builds the descendants dictionary with `Dictionary.Add`, which throws on a repeated key. Keys spell out paths through distinct keyword slots, names and indices, so no repetition is expected, but the model does not prove that and does not model the exception. A lookup takes the first entry with the key.
- JsonExtenders.SortByKey: object members are sorted in ordinal order. The source sorts with the culture-sensitive `string.CompareTo`. The model's insertion sort is also stable, while `List.Sort` is an introsort that is not stable beyond 16 members. So for an object with repeated member names, the relative order of those members, and hence `ObjectsEquivalent`, can differ from the source's.
- The throwing `JsonExtenders.GetArrayAsList`/`GetObjectAsList` are not modelled. `IsEquivalent` calls them only after checking the kind, so only their `TryGet` forms are.
- The abstract `IsMatchOverride` and `OnDeserializedOverride` are fixed to the overrides of the sealed `Schema` class: the first accepts and the second does nothing. Other derived schema types are not part of this model.
- The metadata, content, format and unevaluated-properties keyword files are not part of this model. Those keywords carry no checks in `BasicSchema`.
- `BuilderBlock`'s finalizer is not modelled. `Dispose` is modelled as an explicit call, which lowers the indentation once.
- Console output of `ConsoleMessage`, the `Logger`/`JsonLogger` classes, and the immutable list and dictionary wrappers are not modelled. `JsonLogger`'s composition is the pointer composition passed to `Diagnostics.Verbose`.
- JsonDiagnostics.Relocated: `JsonPointer.Append` is not part of this model. A message is re-addressed by writing the outer pointer's text before the message's source text.
- Threads, the garbage collector, and the mutation of shared lists through aliases outside the modelled classes are not modelled.
