# Verified models of the chat, conversion and codec algorithms

A Dafny model of the algorithms of a local inference engine and its converters that turn one
text, layout or stream into another, with proofs of what each of them is for:

- **Tool-call arguments** (`PyQuotes`, `PyStreaming`, `PyFixedPoints`, `PySpelling`, `PegMapper`,
  `PegTrim`, `PegRuns`, `PegRoundTrip`, `GemmaPrinter`, `GemmaCut`, `GemmaObject`, over `JsonText`
  and `JsonObject`). Python-like text becomes
  JSON text one character at a time; tree nodes become calls with JSON arguments; a syntax tree,
  possibly cut short, is printed. The model reads JSON text with its own scanner, which takes
  strings as section 7 of RFC 8259 defines them, and compares that reading with an independent
  meaning of the input.
- **Schema merge** (`SchemaMerge`, `SchemaMeaning`, `SchemaContents`). A schema with `anyOf`/`oneOf` variants
  becomes one flat object schema. `Accepts` gives schemas a meaning; keywords the merge does not
  look at are interpreted by an arbitrary function, so the results hold for every such keyword.
- **Converter layout** (`Primes`, `Engram`, `ExpertStream`, `ExpertConfluence`, `Bpe`, `BpeTable`, `Mxfp4`).
  Engram constants, the weight/scale/expert stream of DeepSeek-V4.1, the byte pair merges behind
  a vocabulary, and MXFP4 repacking.
- **LoRA pairs** (`Tensors`, `Lora`, `LoraPermute`, `LoraShapes`, `LoraCat`, `LlamaHeads`). Shape operations
  on a pair (A, B) against the same operations on the product B·A.
- **Marker diff** (`Markers`, `DiffSplit`, `DiffMaximal`), **Base64** (`Base64`, `Base64Text`) and the **n-gram table**
  (`NgramMod`).

Loops and objects that change in place are methods and classes here, each proved against a
specification function; the lemmas are about those functions.

Check everything with `dafny verify dfyconfig.toml` (Dafny 4.11).

## Where the code does not do what it promises

Each of these is a proved statement with its exact condition and inputs that show it.

- A bare word such as `Try` streams as `t`, `tr`, `Try`: output already sent is taken back
  (`PyStreaming.StreamsExactlyWhenWordsSpellLiterals`, `PyStreaming.TryIsTakenBack`).
- A tool call without a name loses the arguments that came before the empty name when more
  follow (`PegRoundTrip.CallRoundTrip`, `PegRoundTrip.BrokenText`).
- The marker diff of `<a><b>` and `<a><b><b>` loses a marker
  (`DiffSplit.RebuildsExactlyWithoutReuse`, `DiffSplit.LosesRepeatedMarker`).
- A non-expert FP8 weight of DeepSeek-V4.1 that arrives before its scale leaves the scale behind,
  and the conversion is refused at the end (`ExpertConfluence.StreamEnds`,
  `ExpertConfluence.LateScaleStays`).
- A LoRA pair takes arguments that the tensor library refuses: a shape with several -1, each of
  which then stands for 1, and dimensions from n to 2n - 1, which it reads modulo n
  (`LoraShapes.SeveralInferredAreOne`, `LoraShapes.PermuteAnyDims`).
- `used` of the n-gram table counts more than the occupied slots once a successor equal to EMPTY
  is added (`NgramMod.NgramTable.GetUsed`, `NgramMod.CountsEmpty`).
- The Qwen conversion asserts that the replay of every vocabulary entry leaves two parts. That is
  a property of the vocabulary, not of `bpe` (`BpeTable.TwoPartsIffCompatible`,
  `BpeTable.NothingLeadsThere`, `BpeTable.MergedAcross`). Other callers skip such entries or
  accept up to seven parts.

The gemma4 printer needs the content child of every finished string. The grammar always builds
it, so `GemmaPrinter.ReadsExactlyWithContent` shows only that this hypothesis of the printer's
results is needed, and exactly needed.

## Model

| member | source | states |
|---|---|---|
| `PyQuotes.NormalizeQuotesToJson` | common/chat-peg-parser.cpp:229-369 | the loop over the input, with its two quote flags, escape rewriting, look-ahead and early ends, computes the step semantics `Normalized`, whose meaning the lemmas below give |
| `PyQuotes.NormalizePreservesMeaning` | common/chat-peg-parser.cpp:229-369 | for every input: scanned as JSON (section 7 of RFC 8259) the output is the independent `Meaning` of the input, so it is inside a string exactly where the input is inside a quoted string, holds no malformed string, every string decodes to the value the source string denotes, and the brace counter sees exactly the braces outside strings |
| `PyQuotes.PreservesMeaningFrom` | common/chat-peg-parser.cpp:236-366 | the same from every position and quote state of the loop, not only from the start |
| `PyQuotes.StepMeaning` | common/chat-peg-parser.cpp:241-366 | one turn of the loop writes text that scans as the tokens this piece of input denotes |
| `PyQuotes.WritesWord` | common/chat-peg-parser.cpp:341-362 | a bare word is written as JSON spells it, whether the literal branch or the copying branch takes its characters |
| `PyQuotes.HexRunDecides` | common/chat-peg-parser.cpp:257-289 | the look-ahead after `\u`: four digits, a run cut off by the end of the input, or a literal backslash |
| `PyStreaming.StreamsExactlyWhenWordsSpellLiterals` | common/chat-peg-parser.cpp:265-305 | streaming: the output of every prefix of the input is a prefix of the output of the input **if and only if** every bare word that starts with T, F or N begins True, False or None; a word such as Try is taken back |
| `PyStreaming.TryIsTakenBack` | common/chat-peg-parser.cpp:341-362 | the word Try streams as t, tr, Try |
| `PyStreaming.MonotoneFrom` | common/chat-peg-parser.cpp:257-362 | the direction that keeps the promise, from any position and quote state: cut escapes, lone backslashes and cut words never have to be undone |
| `PyStreaming.BreaksFrom` | common/chat-peg-parser.cpp:341-362 | the other direction: for any input with an offending word it computes the cut whose output is not a prefix |
| `PyFixedPoints.NormalizeIsIdempotent` | common/chat-peg-parser.cpp:229-369 | normalising twice is normalising once, for every input; and the inputs left unchanged are exactly the JSON-like texts (valid strings, no single quote and no word that begins a Python literal outside strings) |
| `PyFixedPoints.OutputIsClean` | common/chat-peg-parser.cpp:229-369 | every output is such a text |
| `PySpelling.WordsAreSpelled` | common/chat-peg-parser.cpp:341-362 | every bare word of every input, by the characters: a beginning of True, False or None becomes the beginning of true, false or null of the same length, any other word is copied, and nothing else is written for it |
| `PySpelling.WholeLiterals` | common/chat-peg-parser.cpp:341-350 | True, False and None become true, false and null |
| `PySpelling.LiteralsEnd` | common/chat-peg-parser.cpp:341-362 | a letter, digit or underscore behind a literal makes it another word |
| `PySpelling.QuotedIsDumped` | common/chat-peg-parser.cpp:309-340 | a quoted string without escapes becomes character by character what the JSON library writes for its value **if and only if** the value has no backspace and no form feed |
| `PySpelling.StandardEscapes` | common/chat-peg-parser.cpp:251-256 | the escapes that pass through stand for the characters of section 7 of RFC 8259 |
| `PySpelling.FourDigits` | common/chat-peg-parser.cpp:257-289 | four hexadecimal digits stand for the number they write, in either case |
| `JsonText.JsonBraceDepth` | common/chat-peg-parser.cpp:161-187 | the loop with its two flags computes `BraceDepth` |
| `JsonText.BraceDepthCountsTokens` | common/chat-peg-parser.cpp:159-187 | on text whose strings are valid JSON strings the counter is exactly the open minus the closed braces outside strings, whatever the strings contain |
| `JsonText.EscapeScans` | common/chat-peg-parser.cpp:189-196 | escaping a string without its quotes: inside a string the escaped text reads back as the original characters, whatever follows |
| `JsonText.DumpScans` | common/chat-peg-parser.cpp:572-577 | a dumped string is one complete JSON string token by token |
| `JsonText.ScanCosts` | common/chat-peg-parser.cpp:190-196 | no text is shorter than the least its scanned tokens need |
| `JsonText.EscapeIsShortest` | common/chat-peg-parser.cpp:190-196 | the escaped form of a string is the shortest text that reads as its characters |
| `JsonText.EscapeMonotone` | common/chat-peg-parser.cpp:190-196 | the escaped form of a prefix is a prefix of the escaped form |
| `PegMapper.Mapper.Map` | common/chat-peg-parser.cpp:490-633 | one tree node on the fields of the mapper: the whole new state is `Apply` of the old one |
| `PegMapper.Mapper.FromAst` | common/chat-peg-parser.cpp:430-459 | all nodes in order, the flush of a pending call and the dropping of blank reasoning |
| `PegMapper.Mapper.MapClose` | common/chat-peg-parser.cpp:607-632 | closing a call: buffered arguments, pending quote, missing braces, and whether the call is kept |
| `PegMapper.CloseBraces` | common/chat-peg-parser.cpp:620-624 | adds exactly the braces that the counter finds open |
| `PegMapper.ClosingBalances` | common/chat-peg-parser.cpp:616-624 | for arguments cut off anywhere outside a string: after the missing braces are added the text is valid, no brace and no string is open, the arguments themselves read as before, and closing again adds nothing |
| `PegMapper.FlushAddsNothing` | common/chat-peg-parser.cpp:434-444 | over every run of nodes a waiting call has no name, so the flush at the end never adds a call |
| `PegRuns.FlushPushesNamed` | common/chat-peg-parser.cpp:434-444 | from a state in which a named call waits, the flush adds it, with the buffered arguments and the missing quote |
| `PegRuns.NamedHasNoBuffer` | common/chat-peg-parser.cpp:520-543 | over every run, arguments wait in the buffer only until the call has a name |
| `PegRuns.TextsOfParse` | common/chat-peg-parser.cpp:446-459 | a whole parse: the content is the text of all content nodes in order; the reasoning is that of all reasoning nodes, and nothing when it is all blank |
| `PegRuns.TextsDoNotDisturb` | common/chat-peg-parser.cpp:495-503 | content and reasoning nodes between the nodes of a call change nothing about the calls |
| `PegRuns.NothingBeforeOpen` | common/chat-peg-parser.cpp:517-610 | nodes about tools do nothing until a call is opened |
| `PegRuns.JsonCallRun` | common/chat-peg-parser.cpp:517-633 | a call in JSON format, its identifier, name and arguments text in any order and any number: one more call with those last given, the trimmed text followed only by the braces that the counter finds open; a text that is no object leaves the arguments as they were; without a name no call |
| `PegRuns.JsonArgumentsRead` | common/chat-peg-parser.cpp:616-624 | what such a call keeps begins with the tokens of the text, and is the text itself when no brace is open |
| `PegRuns.CompleteJsonCall` | common/chat-peg-parser.cpp:533-557 | a name and a complete object, in either order, end in exactly that name and that text |
| `PegRuns.UnquotedMeans` | common/chat-peg-parser.cpp:525-531 | an identifier loses its quotes when it has both |
| `PegRuns.NamelessIsDiscarded` | common/chat-peg-parser.cpp:625-632 | a call that is closed without a name leaves nothing, whatever its arguments |
| `PegRuns.UnclosedValue` | common/chat-peg-parser.cpp:616-620 | a call closed while its last value is open ends as if the value had been closed first |
| `PegRuns.NewArgumentForgets` | common/chat-peg-parser.cpp:559-561 | a new argument forgets a value that was never closed |
| `PegRuns.ValuesJoin` | common/chat-peg-parser.cpp:578-608 | several string values in one argument become one string of all their texts **if and only if** none after the first is empty |
| `PegTrim.NameIsTrimmed` | common/chat-peg-parser.cpp:38-40 | what trimming takes off an argument name: one leading space and all trailing ones |
| `PegTrim.ValueIsTrimmed` | common/chat-peg-parser.cpp:578-581 | off a Python-like value: one space at either end |
| `PegTrim.StringIsTrimmed` | common/chat-peg-parser.cpp:42-57 | off a declared string: one line break at either end, and nothing else |
| `PegRoundTrip.CallRoundTrip` | common/chat-peg-parser.cpp:490-633 | a complete call (open, arguments, name, arguments, close) adds one tool call whose arguments are valid JSON text with no open string and brace depth 0; they parse back to exactly the given keys and values in order **if and only if** the call has a name or has arguments on one side of its name only |
| `PegRoundTrip.CallRun` | common/chat-peg-parser.cpp:490-633 | the exact result of the run: all earlier calls unchanged, one more call with the concatenated argument texts and its closing braces |
| `PegRoundTrip.ArgsRun` | common/chat-peg-parser.cpp:560-606 | any list of arguments in any pointed state: each adds its comma, escaped key and value, and nothing else changes |
| `PegRoundTrip.BrokenText` | common/chat-peg-parser.cpp:520-543 | a nameless call with arguments before and after the name loses the first ones: the text has no readable member list |
| `JsonObject.ObjectParses` | common/chat-peg-parser.cpp:560-606 | a member list written with commas and braces parses back to the same members |
| `GemmaPrinter.Gemma4ToJson` | common/chat-peg-parser.cpp:1161-1254 | the recursive printer with its child loops computes `ToJson` |
| `GemmaPrinter.CutPrintsPrefix` | common/chat-peg-parser.cpp:1161-1254 | what is printed for a tree cut short along its right spine is a prefix of what is printed for the tree |
| `GemmaPrinter.StreamOnlyGrows` | common/chat-peg-parser.cpp:1161-1254 | over a whole stream of growing trees nothing printed is taken back |
| `GemmaCut.CutReads` | common/chat-peg-parser.cpp:1161-1254 | nothing is held back: the text of a tree cut short reads as what the tree shows, namely every child there is with its commas, the characters of an open string so far, and no closing token for what is still open |
| `GemmaCut.StreamShows` | common/chat-peg-parser.cpp:1161-1254 | over a stream that ends in a complete tree this holds of every tree on the way |
| `GemmaCut.FinishedChildrenShown` | common/chat-peg-parser.cpp:1186-1238 | every finished child of an open array or dictionary is printed already, behind the opening bracket |
| `GemmaPrinter.CompleteReads` | common/chat-peg-parser.cpp:1161-1254 | for a complete tree (string content present, scalars without quotes or braces) the text scans as the tokens the tree denotes, every string decoding to its raw text, with no malformed or open string and depth 0 |
| `GemmaPrinter.CompleteIsClosed` | common/chat-peg-parser.cpp:1161-1254 | hence the brace counter of the mapper finds nothing to close |
| `GemmaPrinter.ReadsExactlyWithContent` | common/chat-peg-parser.cpp:1176-1184 | for a finished tree whose strings may lack their content child the text scans as the tokens the tree denotes **if and only if** every printed string has the child: a lone quote leaves the text shorter than its tokens, however the other quotes pair up |
| `GemmaPrinter.FinishedFalls` | common/chat-peg-parser.cpp:1161-1254 | the printed text of a finished tree is shorter than the shortest text for its tokens by exactly one character for every lone quote |
| `GemmaPrinter.LoneQuote` | common/chat-peg-parser.cpp:1176-1184 | an example: a dictionary with one such string ends inside a string |
| `GemmaPrinter.LoneQuotesPair` | common/chat-peg-parser.cpp:1176-1184 | another: two such strings in an array pair up around the comma and read as one string |
| `GemmaObject.DictReadsBack` | common/chat-peg-parser.cpp:1203-1243 | the arguments text of a complete tree of the grammar parses to an object with exactly the raw key names and the denoted values, in order |
| `SchemaMerge.ParametersMerged` | common/chat-peg-parser.cpp:59-157 | an object without `properties` and with a nonempty array of object variants under `anyOf`, or under `oneOf` when there is no `anyOf`, gets `properties` and loses that keyword; every other schema is returned as it is; beside a merged `anyOf` a `oneOf` stays. The result has every property of any variant once with all its distinct declarations in first-seen order, the outer required names followed by those common to all variants, `additionalProperties: false` exactly when all variants are closed (else the outer entry), and every other outer entry; the entries keep the outer order, with what the merge adds behind them |
| `SchemaMerge.MergesUnions` | common/chat-peg-parser.cpp:60-77 | which schemas are merged, and under which keyword |
| `SchemaContents.MergedContents` | common/chat-peg-parser.cpp:79-157 | what the result holds under each of its own keywords, by looking up keys in the outer schema and the variants |
| `SchemaContents.CommonInOrder` | common/chat-peg-parser.cpp:104-117 | the names that all variants require come in the order of the first variant |
| `SchemaContents.PropertiesInOrder` | common/chat-peg-parser.cpp:79-95 | the properties that the first i variants name come before all others, for every i |
| `SchemaContents.DeclarationsInOrder` | common/chat-peg-parser.cpp:87-95 | and so do the declarations of each property |
| `SchemaContents.OuterNamesFirst` | common/chat-peg-parser.cpp:135-150 | the required names of the outer schema come before those that all variants share |
| `SchemaContents.OrderOfNewEntries` | common/chat-peg-parser.cpp:79-156 | the entries of a schema that is nothing but a union, in order |
| `SchemaMerge.Survey` | common/chat-peg-parser.cpp:85-119 | the loop over the variants: declarations in first-seen order, the common required names, and whether all variants are closed |
| `SchemaMerge.Declare` | common/chat-peg-parser.cpp:87-95 | one declaration: appended to its property unless it is there already |
| `SchemaMerge.AddRequired` | common/chat-peg-parser.cpp:135-150 | required names are listed once, where first seen |
| `SchemaMerge.CommonNames` | common/chat-peg-parser.cpp:103-117 | a name is common exactly when every variant requires it |
| `SchemaMeaning.MergedMeans` | common/chat-peg-parser.cpp:59-157 | the merged schema accepts a value **if and only if** it is an object that satisfies the untouched outer keywords, has all required names, gives each declared property a value some declaration accepts, and uses undeclared keys only where allowed |
| `SchemaMeaning.MergeIsSound` | common/chat-peg-parser.cpp:79-84 | an object accepted by the outer schema through some variant, using only properties that variant declares, is accepted by the merged schema |
| `SchemaMeaning.NothingIsLost` | common/chat-peg-parser.cpp:79-84 | the same with fewer hypotheses: the outer `type` and `additionalProperties` need not accept the object |
| `SchemaMeaning.ClosedStaysClosed` | common/chat-peg-parser.cpp:118-118 | when all variants are closed a key that none declares is refused |
| `SchemaMeaning.MergeTwice` | common/chat-peg-parser.cpp:59-62 | merging twice is merging once |
| `Primes.IsPrime` | convert_hf_to_gguf.py:5808-5818 | trial division by 2 and odd numbers up to the square root decides primality, for every integer |
| `Primes.PrimeAbove` | convert_hf_to_gguf.py:5827-5830 | there is a prime above every number (from the factorial), so the candidate search has something to find |
| `Engram.NextUnused` | convert_hf_to_gguf.py:5828-5830 | the search terminates against any finite `seen` and returns the least unused prime above `current` |
| `Engram.PrimesAndOffsets` | convert_hf_to_gguf.py:5820-5839 | over all layers, n-gram sizes and heads the flat list is exactly the first primes from `engram_vocab` on in ascending order, and the offsets restart at 0 in each layer and add up its primes |
| `Engram.LayerPrimes` | convert_hf_to_gguf.py:5824-5833 | one layer continues the list of first primes where the layers before it stopped |
| `Engram.GroupPrimes` | convert_hf_to_gguf.py:5826-5833 | one n-gram size does, although it starts its search from `engram_vocab` again |
| `Engram.LayerOffsets` | convert_hf_to_gguf.py:5835-5839 | the offset loop appends the prefix sums of the layer |
| `Engram.RunningSums` | convert_hf_to_gguf.py:5835-5839 | the first offset of a layer is 0 and each next one is further by the prime before it |
| `Engram.FirstPrimesUnique` | convert_hf_to_gguf.py:5820-5834 | "the first n primes from v on" determines the list |
| `Engram.RangesTile` | convert_hf_to_gguf.py:5835-5839 | within a layer the ranges [offset, offset + prime) are disjoint and tile [0, sum of primes) |
| `Engram.RowHasBucket` | src/llama.cpp:6632-6637 | so every row index below the sum belongs to a bucket that some hash reaches |
| `Engram.WrittenLayoutTiles` | src/llama.cpp:6612-6637 | what the generator writes tiles: read back layer by layer from the two arrays, the rows of a layer stay inside its table and meet only for one bucket and residue |
| `Engram.WrittenLayoutLoads` | src/llama-hparams.cpp:2449-2484 | the loader, with all its guards, accepts what the generator writes **if and only if** it has between 1 and 512 layer ids that are all below the number of layers, a head and a 2-gram: the arrays are never refused |
| `Engram.OffsetCount` | convert_hf_to_gguf.py:5834-5839 | as many offsets as primes are written exactly when there is no layer or a layer has a bucket |
| `Engram.MultipliersFit` | convert_hf_to_gguf.py:5800-5805 | every multiplier is odd, and its product with any compressed token id stays within int64 |
| `Engram.MultipliersCover` | convert_hf_to_gguf.py:5800-5804 | the multipliers are the odd numbers below twice the bound, each once |
| `Engram.BoundIsLargest` | convert_hf_to_gguf.py:5800-5800 | no larger bound would keep the products within int64 |
| `Lora.ReshapeMeans` | convert_lora_to_gguf.py:128-152 | with leading dimensions of A equal to 1, for every shape: reshaping the pair means giving B·A the shape with its -1 replaced, and succeeds exactly when that has at least two dimensions, keeps the row length and fits B·A |
| `Lora.ReshapeAgrees` | convert_lora_to_gguf.py:128-152 | with at most one -1 that is the reshape of the tensor library, in value and in success |
| `Lora.ProductAt` | convert_lora_to_gguf.py:37-51 | the product used throughout is the batched matrix product, entry by entry |
| `LoraShapes.ReshapeInfers` | convert_lora_to_gguf.py:137-152 | what the dense reshape that these are compared with means: at most one dimension is inferred, the others are as given, the size agrees and the data keep their order |
| `LoraShapes.SeveralInferredAreOne` | convert_lora_to_gguf.py:137-142 | with several -1 the pair takes the shape exactly when it takes 1 for each of them, where the tensor library refuses |
| `LoraPermute.PermuteMeans` | convert_lora_to_gguf.py:160-171 | permuting the pair means permuting B·A; it is supported exactly for permutations that keep the last dimension and for every permutation of a matrix |
| `LoraShapes.PermuteAnyDims` | convert_lora_to_gguf.py:160-171 | for any dimensions at all: n is taken from every one that is not negative, and the pair is permuted **if and only if** the library takes the result and it keeps the last dimension or turns a matrix over; the library takes the given dimensions too exactly when none is n or more |
| `LoraPermute.TransposeMeans` | convert_lora_to_gguf.py:173-180 | exchanging two dimensions of the pair means exchanging them in B·A, with the exact supported cases |
| `LoraPermute.SwapMeans` | convert_lora_to_gguf.py:167-168 | a transposed matrix pair exchanges and transposes its factors |
| `LoraCat.CatMeans` | convert_lora_to_gguf.py:204-219 | stacking matrix pairs means stacking their products, and is refused exactly when the A factors differ |
| `LlamaHeads.PermuteHeadsMeans` | convert_hf_to_gguf.py:1685-1691 | the head permutation on a LoRA pair means the head permutation on B·A, and succeeds exactly when that does |
| `LlamaHeads.PermuteHeadsMovesRows` | convert_hf_to_gguf.py:1685-1691 | for `n_head_kv` heads when that is given and `n_head` otherwise: the permuted weights keep their shape and row q is row `HeadSource(d, q)` of the input, entry by entry |
| `LlamaHeads.PermuteHeadsWorks` | convert_hf_to_gguf.py:1685-1691 | it works exactly when the rows are a whole number of pairs of halves, for `n_head_kv` heads when that is given |
| `LlamaHeads.HeadRows` | convert_hf_to_gguf.py:1689-1691 | within a head, rows 2i and 2i + 1 come from place i of the first and of the second half |
| `LlamaHeads.HeadRowsBijective` | convert_hf_to_gguf.py:1689-1691 | that row map has a two-sided inverse: no row is lost or doubled |
| `Tensors.PermutedAt` | convert_lora_to_gguf.py:160-171 | what permuting a dense tensor means, index by index |
| `ExpertStream.Converter.ModifyTensors` | convert_hf_to_gguf.py:5644-5696 | one arriving weight or scale on the dictionaries of the converter: the whole new state, or which error |
| `ExpertStream.Converter.RecordExpert` | convert_hf_to_gguf.py:5698-5718 | a completed expert joins its group, and a full group is stacked and removed; or which error |
| `ExpertStream.RefusesUnexpectedScales` | convert_hf_to_gguf.py:5668-5670 | a tensor that is not an expert is refused exactly when it is a scale that none is expected to have |
| `ExpertStream.ExpertOutcome` | convert_hf_to_gguf.py:5698-5718 | by the numbers that have arrived: too few wait, exactly 0 to n - 1 are stacked, any other n are refused |
| `ExpertConfluence.EveryStateMatches` | convert_hf_to_gguf.py:5644-5718 | after any part of any arrival order the dictionaries and the output are exactly those that the set of arrived tensors determines; a full group has exactly one stack, whose slice e combines weight e with scale e |
| `ExpertConfluence.OrderDoesNotMatter` | convert_hf_to_gguf.py:5644-5718 | two orders of the same tensors leave the same weights and experts waiting and write and return the same tensors, each once |
| `ExpertConfluence.StreamEnds` | convert_hf_to_gguf.py:5852-5860 | at the end no weight and no expert is left over, every expert is in a stack, and `prepare_tensors` accepts **if and only if** no non-expert weight came before its scale |
| `ExpertConfluence.LateScaleStays` | convert_hf_to_gguf.py:5668-5677 | the shortest such stream: a weight and then its scale |
| `ExpertConfluence.LateMeans` | convert_hf_to_gguf.py:5668-5677 | the scales left behind are exactly those of non-expert weights that came first |
| `Bpe.Encode` | convert_hf_to_gguf.py:2265-2280 | the loop terminates and computes `Run` |
| `Bpe.LowestPair` | convert_hf_to_gguf.py:2268-2274 | the inner loop finds the first pair of lowest rank |
| `Bpe.EncodingOfToken` | convert_hf_to_gguf.py:2265-2280 | the parts concatenate to the token, every part of several bytes is ranked below the limit, and no adjacent pair can still be merged below it |
| `Bpe.RunContinues` | convert_hf_to_gguf.py:2275-2279 | a bounded run is the beginning of every run with a larger or no limit |
| `Bpe.OwnRankLeavesTwo` | convert_hf_to_gguf.py:801-807 | bounded by its own rank a token of several bytes keeps at least two parts |
| `BpeTable.TwoPartsIffCompatible` | convert_hf_to_gguf.py:801-807 | the conversion finds two parts for every entry **if and only if** some table of cuts is compatible with the ranks: halves are bytes or entries of lower rank, and along every cut no pair of entries that ever face each other is an entry merged earlier; the condition looks only at ranks and table |
| `BpeTable.MergesAreTable` | convert_hf_to_gguf.py:801-807 | a given table lists the merges that the conversion finds **if and only if** it is compatible |
| `BpeTable.CompatibleEnds` | convert_hf_to_gguf.py:2265-2280 | from every moment of the replay of an entry whose cuts hold, it ends in the two halves |
| `BpeTable.EndsApart` | convert_hf_to_gguf.py:2265-2280 | a replay that ends in the two halves shows that its cut holds |
| `BpeTable.NothingLeadsThere` | convert_hf_to_gguf.py:805-806 | a vocabulary for which the assertion fails: an entry that nothing leads to |
| `BpeTable.MergedAcross` | convert_hf_to_gguf.py:805-806 | another, in which both halves are entries of lower rank, but an entry across the cut is merged first |
| `Bpe.TwoPartsIffReachable` | convert_hf_to_gguf.py:805-806 | for one entry and distinct ranks: exactly two parts are left exactly when the next merge would complete the entry |
| `Mxfp4.RepackIsLossless` | convert_hf_to_gguf.py:5411-5433 | refused exactly for the shapes it cannot lay out; otherwise unpacking the output restores weight and scale |
| `Mxfp4.RowElement` | convert_hf_to_gguf.py:5426-5433 | element k of block b is in the low nibble of byte k, or the high nibble of byte k - 16, and equals source element 32b + k (even column low, odd column high); the scale byte stands in front of its block |
| `Mxfp4.RowBytes` | convert_hf_to_gguf.py:5427-5433 | the packed bytes in numbers: byte j of a block is nibble j of the block plus 16 times nibble j + 16, behind the scale byte |
| `Mxfp4.PackedRestored` | convert_hf_to_gguf.py:5426-5433 | repacking is onto: packing what unpacking gives restores the packed row |
| `Markers.SegmentizeMarkers` | common/chat-auto-parser-helpers.cpp:269-299 | the segments concatenate to the text; each marker runs from an opener to its first matching closer, plain text has no opener, and only at the end may a marker stay unclosed |
| `Markers.SegmentationIs` | common/chat-auto-parser-helpers.cpp:269-299 | the function `Segmentation` that the diff is stated with gives that list |
| `Markers.SegmentationJoins` | common/chat-auto-parser-helpers.cpp:269-299 | and describes every text |
| `Markers.SegmentationUnique` | common/chat-auto-parser-helpers.cpp:269-299 | that describes one segmentation only |
| `DiffSplit.CalculateDiffSplit` | common/chat-auto-parser-helpers.cpp:87-207 | the whole computation with its four iterators; its result is the `DiffOf` the main result is about |
| `DiffSplit.MatchEnds` | common/chat-auto-parser-helpers.cpp:102-139 | the loop, in place on its iterators |
| `DiffSplit.ExitBalanced` | common/chat-auto-parser-helpers.cpp:114-139 | the loop keeps prefix + unconsumed + suffix equal to either text |
| `DiffSplit.RebuildsExactlyWithoutReuse` | common/chat-auto-parser-helpers.cpp:87-207 | the result rebuilds both texts as prefix + left + suffix and prefix + right + suffix **if and only if** no segment that the loop consumed is matched again after it |
| `DiffSplit.RebuildsWithoutRepeats` | common/chat-auto-parser-helpers.cpp:87-207 | hence it rebuilds them when no segment occurs twice in either text |
| `DiffMaximal.NothingSharedRemains` | common/chat-auto-parser-helpers.cpp:102-183 | when something is left on both sides nothing more is shared: prefix and suffix are the matched segments, the same on both sides; the next segments differ at both ends; where both are text the split goes on to the first character that differs; a marker is never cut |
| `DiffMaximal.EqualStartsAreShared` | common/chat-auto-parser-helpers.cpp:102-183 | equal first segments are in the prefix, but for a right text of one segment that a longer left text also ends in |
| `DiffMaximal.EqualEndsAreShared` | common/chat-auto-parser-helpers.cpp:102-205 | equal last segments are in the suffix, unless the whole left text is the prefix |
| `DiffMaximal.PlainTexts` | common/chat-auto-parser-helpers.cpp:166-205 | texts without markers: the suffix is the longest common end, the prefix the longest common start of what remains, and a left text that begins the right one is the prefix |
| `DiffMaximal.TagIsMarker` | common/chat-auto-parser-helpers.cpp:269-299 | an opener up to its first closer is one marker |
| `DiffMaximal.PlainIsText` | common/chat-auto-parser-helpers.cpp:269-299 | a text without openers is one piece of text |
| `DiffMaximal.UnclosedIsText` | common/chat-auto-parser-helpers.cpp:269-299 | an opener that nothing closes begins text |
| `DiffSplit.LosesRepeatedMarker` | common/chat-auto-parser-helpers.cpp:141-165 | for `<a><b>` and `<a><b><b>` it does not |
| `DiffSplit.TrimRests` | common/chat-auto-parser-helpers.cpp:172-183 | shared text at the ends of the two remainders never overlaps and keeps both texts |
| `DiffSplit.CommonPrefixLen` | common/chat-auto-parser-helpers.cpp:69-76 | the longest common prefix |
| `DiffSplit.CommonSuffixLen` | common/chat-auto-parser-helpers.cpp:78-85 | the longest common suffix |
| `Base64.Encode` | common/base64.hpp:79-144 | the loop computes `Encoded`, of length `required_encode_size` |
| `Base64.EncodedSize` | common/base64.hpp:338-341 | the length of the encoded text is `required_encode_size` |
| `Base64Text.Alphabets` | common/base64.hpp:83-86 | the two alphabets, character by character |
| `Base64Text.GroupOfThree` | common/base64.hpp:85-139 | three bytes become the four digits of one 24-bit number, high bits first |
| `Base64Text.GroupAtEnd` | common/base64.hpp:93-124 | one or two bytes at the end, filled up with zero bits and padding |
| `Base64Text.AcceptsExactly` | common/base64.hpp:199-244 | with a fixed alphabet a text is accepted **if and only if** only characters of the alphabet come before the padding and, unless the check is loose, only padding behind it; and how many bytes it then holds |
| `Base64.EncodeThenDecode` | common/base64.hpp:80-243 | for every byte sequence and both alphabets of sections 4 and 5 of RFC 4648: decoding with the matching or the detected alphabet, loose or not, padded or with the padding stripped, gives the bytes back |
| `Base64.RoundTrip` | common/base64.hpp:80-243 | the same for any number of trailing padding characters and any decoder state at a group boundary |
| `Base64.Decode` | common/base64.hpp:199-244 | from buffer to buffer, which may be the same buffer: the outcome, bytes and length are those of decoding the input as it was, and the rest of the buffer is untouched |
| `Base64.DecodeInPlace` | common/base64.hpp:294-313 | in-place decoding refines copying decoding |
| `Base64.Unread` | common/base64.hpp:208-229 | every write lands on a position already read, so the characters still to come are intact |
| `Base64.DecodedFits` | common/base64.hpp:324-327 | the decoded length never exceeds `max_decode_size` |
| `Base64Text.RoomForGroups` | common/base64.hpp:324-327 | `max_decode_size` is three bytes for every group of four characters, the last of which may be incomplete, and unpadded text fills it |
| `Base64.DetectionIsUnion` | common/base64.hpp:344-389 | alphabet detection accepts exactly what one of the two alphabets accepts, and decodes it alike |
| `NgramMod.NgramTable.Add` | common/ngram-mod.cpp:27-35 | the slot of the n-gram gets its successor, the history gets one add, and `used` grows exactly when the slot was empty |
| `NgramMod.NgramTable.Get` | common/ngram-mod.cpp:37-41 | returns what the latest add to the slot of the n-gram stored |
| `NgramMod.NgramTable.Reset` | common/ngram-mod.cpp:43-46 | all slots EMPTY, no history, `used` 0 |
| `NgramMod.NgramTable.Idx` | common/ngram-mod.cpp:15-25 | the wrapping hash loop |
| `NgramMod.NgramTable.GetUsed` | common/ngram-mod.cpp:30-33 | `used` is the number of occupied slots plus the adds that stored EMPTY, hence equal to it **if and only if** no add stored EMPTY |
| `NgramMod.CountsEmpty` | common/ngram-mod.cpp:27-35 | one add of an EMPTY successor is counted although nothing is found afterwards |
| `NgramMod.LatestIsLast` | common/ngram-mod.cpp:27-41 | the answer is the successor of an add to the slot after which no other add went there |
| `NgramMod.LatestIsEmpty` | common/ngram-mod.cpp:37-46 | and EMPTY when nothing was added to the slot |
| `NgramMod.InUseIffAdded` | common/ngram-mod.cpp:27-41 | when no add stored EMPTY a slot is in use exactly when some add went to it |
| `NgramMod.HashWrapsOnce` | common/ngram-mod.cpp:15-21 | wrapping at every step gives the polynomial hash modulo 2^64 |
| `NgramMod.SlotIsPolynomial` | common/ngram-mod.cpp:15-25 | the slot in numbers: the polynomial modulo 2^64, then modulo the size |
| `NgramMod.OccupiedCounts` | common/ngram-mod.cpp:27-33 | `Occupied` is the number of slots that hold a token |

## Left out

- The PEG engine, grammar conversion, template rendering and the chat diff analyser: only the
  node list that the mapper receives and the tree that the printer receives are modelled;
  `arena.visit` becomes the order of a list, the arena and its ids become a tree of values.
- The MiniMax mapper and the generic tag mapper: the same node handling with other tags.
- The DeepSeek-V4 MTP stream and the Raon stream: the same pairing and stacking as the V4.1
  expert path, without its non-expert branch.
- `torch.stack`, `torch.cat` of pairs of rank above 2, `__getitem__` and LoRA factors whose A has
  leading dimensions above 1: the code marks these as unfinished or asserts against them.
- Dimensions of size zero, tensor dtypes and devices; tensor elements are reals, so rounding of
  the product is not modelled.
- Drawing the engram multipliers from the random generator (the drawn numbers are a parameter),
  the compressed token map, the metadata writer and the file formats.
- Invalid UTF-8 in dumped strings; characters stand for bytes and code points alike.
- PegMapper.Mapper.Map: requires that a node about tools does not follow a discarded call, where
  the code would read a reset optional.
- PegMapper.Mapper.FromAst: requires the same of its list of nodes.
- PegRoundTrip.CallRoundTrip: a value that is not a declared string must be one complete
  Python-like value; of other text only the scanner-level meaning is stated
  (`PyQuotes.NormalizePreservesMeaning`). Identifiers and arguments texts are in the run of
  `PegRuns.JsonCallRun`; a call that mixes these with tagged arguments is in neither.
- GemmaPrinter.CompleteReads: states the scanned tokens of the text; the parsed members are in
  `GemmaObject.DictReadsBack`, where nested values stay token sequences.
- GemmaObject.DictReadsBack: for trees with the children that the grammar gives every node; that
  the grammar does so is not part of this model.
- SchemaMeaning.MergedMeans: `patternProperties`, `unevaluatedProperties` and other keywords that
  look at their siblings are interpreted one by one, without that interplay; `$ref` likewise.
- ExpertStream.Converter.ModifyTensors: the tensor operations stay uninterpreted and do not fail;
  the recorded dtypes and the name mapping do not appear.
- ExpertConfluence.OrderDoesNotMatter: as sets, since the order of writing follows the order of
  arrival.
- Bpe.TwoPartsIffReachable: its condition is one more merge of the same replay; the condition on
  the vocabulary is that of `BpeTable.TwoPartsIffCompatible`, which speaks of all entries, as the
  conversion does, because an entry can be replayed through entries whose own replay fails.
- Engram.WrittenLayoutLoads: the multipliers appear by their number; the loader's reading of the
  token map and its other keys is not modelled.
- Mxfp4.RepackIsLossless: bytes are numbers, so shifts and masks appear as products and remainders.
- Base64.Decode: the two error behaviours that check the padding are one flag, as the code treats
  them alike; a rejected text leaves the buffer unspecified.
- NgramMod.NgramTable.Add: `used` is a number without the 64-bit wrap-around, which no run reaches.
- LlamaHeads.PermuteHeadsMeans: a negative number of heads is not modelled.
- DiffSplit.CalculateDiffSplit: the other helpers of the file (until/after common prefix, marker
  pruning, whitespace trimming) are not modelled.
