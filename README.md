# Eina JSON parser and Evas lookup-table interpolation in Dafny

This project models two pieces of the EFL libraries and proves properties
about them.

**The Eina JSON streaming parser** (`src/lib/eina/eina_json.c`).
- A lexer state machine turns characters into tokens.
- A syntax state machine checks the tokens against the grammar. It keeps a
  parent stack and calls a parser callback once per value, container and
  pair.
- A context object holds both machines, the error, the position and the
  glue buffer, which collects the text of the current lexeme.
- The value tree: typed nodes with a parent link and ordered children.
  There are constructors, getters, setters, list editing, key-path lookup
  and a recursive free.
- The text writer prints a tree in packed or basic format.

**Evas filter lookup-table interpolation**
(`src/lib/evas/filters/evas_filter_utils.c`). This fills a 256-entry byte
table from `(x, value)` control points, in step or linear mode.

## Layout

| file | module | what it holds |
|---|---|---|
| `json_types.dfy` | `JsonTypes` | handles (0 is NULL), value types, error codes, tokens, stack frames, callback calls |
| `json_print.dfy` | `JsonPrint` | the printable tree, number text, `_eina_json_delim_print` |
| `json_value.dfy` | `JsonValue` | the value store as an arena `map<Handle, Value>` and the class `Store` with the value API |
| `json_machine.dfy` | `JsonMachine` | both state machines as transition functions, the context snapshot `Parser`, the feed loop `Feed`, reset, take |
| `json_context.dfy` | `JsonContext` | the class `Context`, whose fields are those of `Eina_Json_Context`, and the parse API |
| `json_properties.dfy` | `JsonProperties` | position, errors, chunked input, glue buffer, parent stack |
| `json_completion.dfy` | `JsonCompletion` | what starts a document, when it completes, what comes after the end |
| `json_callbacks.dfy` | `JsonCallbacks` | the calls a user callback sees and the parents they name |
| `json_lexemes.dfy` | `JsonLexemes` | string, number and keyword lexemes and the text handed over for them |
| `json_dom.dfy` | `JsonDom` | the tree builder: links, the root, take-once, and some concrete token sequences |
| `json_ownership.dfy` | `JsonOwnership` | what the tree builder adds to the store, and what freeing its root gives back |
| `json_examples.dfy` | `JsonExamples` | number texts and `{"a":1}` read, printed back and read in two chunks |
| `filter_interpolate.dfy` | `FilterInterpolate` | `_interpolate_none`, `_interpolate_linear`, `_interpolate_cubic`, `evas_filter_interpolate` |

## How the parser is modelled

**The context snapshot.** `JsonMachine.Parser` records everything the parser
holds:
- the lexer state and the syntax state, where `None` is the stopped machine
  (C's NULL state);
- the error, the glue text and its buffer size, and the line and column;
- the parent stack as a sequence of frames. One frame stands for the two
  pushes of a type and a handle, so the C stack always holds an even number
  of entries;
- the current parent and its type, the root `jobj`, the call log and the
  value store.

**The state machines.** `LexTransition` is the lexer callback of each state.
`SynSimple` and `SynCallback` are the syntax callbacks. `LexRun` and
`SyntaxRun` are `_state_machine_feed`: they re-run a callback while it asks
for the same character or token again, and a rank on the states proves
that this loop ends.

**The per-character loop.** `Step` is one iteration of the loop in
`_eina_json_context_parse`, and `Feed` is the whole loop.

**The callback.** The user callback is a function of the calls made so far
(`SaxMode(handler)`), and the call log stands for what its user data can
remember. `DomMode(atof)` is the built-in tree builder,
`_eina_json_parser_dom_cb`. It carries the conversion from a number's text to
its value, so the lemmas about the builder hold for any conversion; the
entry points `JsonParse` and `JsonParseN` pass `Atof`.

**The class.** `JsonContext.Context` keeps the same fields in place, with the
glue in an `array<char>` that grows by 64. Each of its methods is proved to
change the fields exactly as the matching function says, through the ghost
snapshot `Abs()`.

**The value store.** `JsonValue.Store` holds live nodes in a map from handles
to nodes. Its methods update that map in place.

**The interpolation.** `FilterInterpolate` writes the table in place in an
`array`. Each method is proved equal to a specification function (`NoneFrom`,
`LinearFrom`), and lemmas state what those functions produce.

## Where the code and the documentation part ways

The model follows the code in each case below.
- **`_syntx_end_cb` does not check for an earlier error.** On its own, the
  end state's callback writes PAST_END without looking at the error already
  set (eina_json.c:426-432), whereas the lexer's and grammar's "unexpected"
  callbacks write only when no error is set (eina_json.c:434-441, 604-611).
  For a caller of the feed loop the first error is still always the one
  kept. A lexical error stops the lexer, a syntax error stops the grammar,
  and the loop returns as soon as any error is set (eina_json.c:648-649,
  666-667). `JsonProperties.FeedResult` proves that feeding with an error
  already set changes nothing.
- **"Completed" does not mean "no error".** Completed means only that the
  syntax machine is in its end state. A bad character after the end sets a
  lexical error and the context stays completed (`StepAfterEnd`).
- **One value can be appended twice.** `eina_json_object_append` never sets
  the value's parent (eina_json.c:1158), so the same value can be appended
  again. `eina_json_object_insert` does set it (eina_json.c:1185).
- **The tree builder sets no parent for object members or pair values.** It
  links them without setting their parent. Only array items get a parent,
  through `eina_json_array_append` (eina_json.c:243-245).
- **Keyword text lacks its last letter.** The keyword token is emitted before
  the last letter is glued, so the callback's text is `tru`, `fals` or `nul`.
- **Either closing bracket closes any container.** The value state accepts
  `}` or `]` for either container. So `[1,]` and `[}` complete, and in
  `{"a":}` the `}` closes the pair, not the object.
- **A zero-length `parse_n` answers the opposite of `parse`.**
  `eina_json_context_parse_n` with length 0 answers true exactly when an
  error is set (eina_json.c:968).

## Model

| member | source | states |
|---|---|---|
| `JsonPrint.RoundHalfEven` | src/lib/eina/eina_json.c:784-785 | the rounding used for `%.2f` lands within one half of the exact value |
| `JsonPrint.NumberTextShape` | src/lib/eina/eina_json.c:781-786 | an integral number prints with no decimal point; any other number ends in a point and exactly two digits; neither contains a blank |
| `JsonPrint.PackedHasNoBlank` | src/lib/eina/eina_json.c:767-842 | packed output contains no blank, newline, tab or CR outside the string and key texts |
| `JsonPrint.PackedIgnoresIndent` | src/lib/eina/eina_json.c:767-842 | packed output does not depend on the indentation arguments |
| `JsonPrint.BasicObjectLayout` | src/lib/eina/eina_json.c:818-840 | in basic format a non-empty object's first member starts a new line indented one step deeper, and its closing brace sits on its own line at the object's own indentation |
| `JsonValue.Alloc` | src/lib/eina/eina_json.c:689-696 | a new node takes a handle not in use and has no parent, and the store stays well formed |
| `JsonValue.GenAppendOn` | src/lib/eina/eina_json.c:714-727 | an append is refused exactly when the value already has a parent, and then nothing changes; otherwise the value goes last in the list, its parent becomes the container, no node is added and every other node is unchanged |
| `JsonValue.ArrayAppendOn` | src/lib/eina/eina_json.c:1250-1256 | an array append succeeds exactly when the target is an array, the value is not a pair, and the value has no parent; it adds the value at the end of the array, the array becomes the value's parent, no node is added and every other node is unchanged |
| `JsonValue.Inserted` | src/lib/eina/eina_json.c:729-748 | an insert puts the value at the index, keeps the earlier elements, and shifts the later ones up by one |
| `JsonValue.Removed` | src/lib/eina/eina_json.c:750-759 | a remove drops the element at the index and shifts the later ones down by one |
| `JsonValue.InsertRemoveInverse` | src/lib/eina/eina_json.c:729-759 | removing at the index where a value was inserted gives the list back, and re-inserting a removed element restores the list |
| `JsonValue.NthGet` | src/lib/eina/eina_json.c:704-712 | answers the element at the index, or NULL from the count on |
| `JsonValue.FindPair` | src/lib/eina/eina_json.c:1205-1234 | finds the first pair with the key among the items (no earlier item is a pair with that key); when it finds none, no pair among them has that key |
| `JsonValue.ValueAtOneKey` | src/lib/eina/eina_json.c:1205-1234 | an empty key path answers NULL; a one-key lookup answers the value of the first pair with that key, or NULL when there is none |
| `JsonValue.FormatString` | src/lib/eina/eina_json.c:1280-1294 | any format above BASIC yields NULL; packed output of a tree whose texts have no blanks contains no blanks |
| `JsonValue.Store.NewValue` | src/lib/eina/eina_json.c:689-696 | the store gains exactly one node, under a handle not in use, with no parent |
| `JsonValue.Store.NumberNew` | src/lib/eina/eina_json.c:976-982 | adds one number node, which reads back the number |
| `JsonValue.Store.StringNew` | src/lib/eina/eina_json.c:984-995 | a NULL string gives NULL and changes nothing; otherwise adds one string node holding the text |
| `JsonValue.Store.BooleanNew` | src/lib/eina/eina_json.c:997-1003 | adds one boolean node, which reads back the flag |
| `JsonValue.Store.NullNew` | src/lib/eina/eina_json.c:1005-1009 | adds one node of type NULL |
| `JsonValue.Store.ObjectNew` | src/lib/eina/eina_json.c:1011-1015 | adds one empty object |
| `JsonValue.Store.ArrayNew` | src/lib/eina/eina_json.c:1017-1021 | adds one empty array |
| `JsonValue.Store.Free` | src/lib/eina/eina_json.c:1023-1059 | NULL, missing and owned values leave the store unchanged; otherwise the nodes that leave are exactly the subtree of the value (its children and a pair's value, recursively), and every node that stays is untouched |
| `JsonValue.Store.FreeChild` | src/lib/eina/eina_json.c:1039-1052 | a child is released from its parent and freed: the nodes that leave are exactly its subtree, a missing child changes nothing, and every node that stays is untouched |
| `JsonValue.Store.NumberSet` | src/lib/eina/eina_json.c:1067-1073 | succeeds exactly on a number node and then stores the number; otherwise changes nothing |
| `JsonValue.Store.StringSet` | src/lib/eina/eina_json.c:1075-1082 | succeeds exactly on a string node and then stores the text; otherwise changes nothing |
| `JsonValue.Store.BooleanSet` | src/lib/eina/eina_json.c:1084-1090 | succeeds exactly on a boolean node and then stores the flag; otherwise changes nothing |
| `JsonValue.Store.ObjectNthGet` | src/lib/eina/eina_json.c:1134-1139 | non-NULL exactly for an object and an index below its count, and then it is that member |
| `JsonValue.Store.ArrayNthGet` | src/lib/eina/eina_json.c:1243-1248 | non-NULL exactly for an array and an index below its count, and then it is that item |
| `JsonValue.Store.ObjectIterator` | src/lib/eina/eina_json.c:1198-1203 | exists exactly for objects, and then yields the members in list order |
| `JsonValue.Store.ArrayIterator` | src/lib/eina/eina_json.c:1273-1278 | exists exactly for arrays, and then yields the items in list order |
| `JsonValue.Store.ArrayAppend` | src/lib/eina/eina_json.c:1250-1256 | changes the store as `ArrayAppendOn` says; on success the count rises by one |
| `JsonValue.Store.GenInsert` | src/lib/eina/eina_json.c:729-748 | succeeds exactly when the value has no parent and the index is below the count or is 0; the value then sits at the index, the count rises by one and the value's parent is the container; on failure nothing changes |
| `JsonValue.Store.GenNthRemove` | src/lib/eina/eina_json.c:750-759 | succeeds exactly when the index is below the count; then the list loses that element, the nodes that leave are exactly its subtree and every other node is as before apart from the list; otherwise nothing changes |
| `JsonValue.Store.ObjectNthRemove` | src/lib/eina/eina_json.c:1191-1196 | succeeds exactly on an object with the index below its count, with the same removal and freeing; otherwise nothing changes |
| `JsonValue.Store.ArrayNthRemove` | src/lib/eina/eina_json.c:1266-1271 | the same for arrays |
| `JsonValue.Store.ArrayInsert` | src/lib/eina/eina_json.c:1258-1264 | succeeds exactly on an array, a value that is not a pair and has no parent, and an index below the count or 0; then the new store is the old one with the value inserted at that position and its parent set to the array, nothing else; otherwise nothing changes |
| `JsonValue.Store.ObjectAppend` | src/lib/eina/eina_json.c:1141-1162 | succeeds exactly on an object and a value that is neither a pair nor owned; the new store is the old one plus one fresh pair named by the key, holding the value, at the end of the members; the value's parent is not set and nothing else changes |
| `JsonValue.Store.ObjectInsert` | src/lib/eina/eina_json.c:1164-1189 | the same with the pair placed at the index (below the count, or 0); here the value's parent becomes the new pair, and nothing else changes |
| `JsonValue.Store.ObjectValueGet` | src/lib/eina/eina_json.c:1205-1234 | answers the node the key path leads to, following the first pair of each key |
| `JsonValue.Store.FormatStringGet` | src/lib/eina/eina_json.c:1280-1294 | NULL for a format above BASIC; otherwise the writer's output with indent step 0 (PACKED) or 2 and line breaks (BASIC) |
| `JsonValue.Store.SetPairValue` | src/lib/eina/eina_json.c:236-237 | the pair's value becomes the node and nothing else in the store changes |
| `JsonValue.Store.ListAppend` | src/lib/eina/eina_json.c:239-241 | the node goes last in the object's list, its parent is not set, and nothing else in the store changes |
| `JsonMachine.LexTransition` | src/lib/eina/eina_json.c:443-611 | a callback that asks to re-read the character moves to a state of lower rank, so the feed loop ends; only the unexpected state raises an error; only the initial state empties the glue |
| `JsonMachine.SynSimple` | src/lib/eina/eina_json.c:277-287 | the callbacks without side effects (entry, new object, colon, next object, next array) move to a lower rank when they re-send the token |
| `JsonMachine.SynValue` | src/lib/eina/eina_json.c:289-359 | the value callback re-sends a token only to the unexpected state, and never touches the lexer side |
| `JsonMachine.PopParent` | src/lib/eina/eina_json.c:304-305 | popping a frame leaves the lexer state, glue and position alone |
| `JsonMachine.CloseValue` | src/lib/eina/eina_json.c:300-307 | closing a value leaves the lexer state, glue and position alone |
| `JsonMachine.FinishValue` | src/lib/eina/eina_json.c:348-355 | finishing a scalar never re-sends the token and leaves the lexer side alone |
| `JsonMachine.OpenOrFail` | src/lib/eina/eina_json.c:328-346 | opening a container leaves the lexer side alone |
| `JsonMachine.Scalar` | src/lib/eina/eina_json.c:319-335 | a scalar token's call and finish leave the lexer side alone |
| `JsonMachine.SynObjectName` | src/lib/eina/eina_json.c:374-390 | the key callback re-sends a token only to the unexpected state, and never touches the lexer side |
| `JsonMachine.SynCallback` | src/lib/eina/eina_json.c:277-441 | every syntax callback that re-sends a token moves to a lower rank and leaves the lexer, glue and position alone |
| `JsonMachine.DomBuild` | src/lib/eina/eina_json.c:193-255 | the tree builder returns a new non-NULL node, touches only the store and the root, and makes the node the root exactly when the parent is NULL |
| `JsonMachine.Callback` | src/lib/eina/eina_json.c:328-335 | with a user callback one call is logged and the store is untouched; with the tree builder nothing is logged |
| `JsonMachine.UpToNul` | src/lib/eina/eina_json.c:651 | the loop reads the text up to its first NUL |
| `JsonMachine.Cut` | src/lib/eina/eina_json.c:641-675 | the loop reads a NUL-free prefix of the text, no longer than a non-zero length, and stops early only at a NUL or at the length |
| `JsonContext.Context.constructor` | src/lib/eina/eina_json.c:613-639 | a new context is in the state reset gives: initial and entry states, no error, empty 64-byte glue, position 1:1 |
| `JsonContext.Context.LinkChild` | src/lib/eina/eina_json.c:231-249 | links a new node to its parent as `Link` says |
| `JsonContext.Context.DomCallback` | src/lib/eina/eina_json.c:193-255 | changes the context and the store as `DomBuild` says |
| `JsonContext.Context.ParserCallback` | src/lib/eina/eina_json.c:328-335 | runs the tree builder or logs one call to the user callback, as `Callback` says |
| `JsonContext.Context.PopFrame` | src/lib/eina/eina_json.c:305-306 | restores the parent and its type from the top frame |
| `JsonContext.Context.SyntaxValue` | src/lib/eina/eina_json.c:289-359 | the value callback, equal to `SynValue` |
| `JsonContext.Context.CloseCurrent` | src/lib/eina/eina_json.c:300-307 | a closing bracket with an empty stack moves to the end state, which completes the document; otherwise the parent and its type come back from the stack, as `CloseValue` says |
| `JsonContext.Context.ValueCall` | src/lib/eina/eina_json.c:328-356 | one call for the value; a NULL answer sends the grammar to the unexpected state; a container is pushed and becomes the parent, a scalar is finished, as `OpenOrFail` and `Scalar` say |
| `JsonContext.Context.FinishCurrent` | src/lib/eina/eina_json.c:348-355 | after a scalar, the pair it completes is popped, and the grammar expects the next member or item according to the parent type, as `FinishValue` says |
| `JsonContext.Context.SyntaxObjectName` | src/lib/eina/eina_json.c:374-390 | the key callback, equal to `SynObjectName` |
| `JsonContext.Context.SyntaxCallback` | src/lib/eina/eina_json.c:277-441 | dispatch on the syntax state, equal to `SynCallback` |
| `JsonContext.Context.SyntaxFeed` | src/lib/eina/eina_json.c:257-275 | the syntax machine's feed loop, equal to `SyntaxRun` |
| `JsonContext.Context.ClearGlue` | src/lib/eina/eina_json.c:448-453 | empties the glue text |
| `JsonContext.Context.Prelude` | src/lib/eina/eina_json.c:448-464 | the first effects of a lexer callback: the previous text is dropped, the gluing flag is set, and a newline advances the line and restarts the column, as `LexPrelude` says |
| `JsonContext.Context.ApplyEffect` | src/lib/eina/eina_json.c:443-611 | applies one lexer callback's effects, equal to `ApplyLex` |
| `JsonContext.Context.LexCallback` | src/lib/eina/eina_json.c:443-611 | one lexer callback, equal to `LexTransition` followed by `ApplyLex` |
| `JsonContext.Context.LexFeed` | src/lib/eina/eina_json.c:257-269 | the lexer's feed loop, equal to `LexRun` |
| `JsonContext.Context.GlueAppend` | src/lib/eina/eina_json.c:655-663 | grows the buffer by 64 when fewer than 2 bytes are free, then appends the character and a NUL |
| `JsonContext.Context.ReadChar` | src/lib/eina/eina_json.c:653-669 | one iteration of the character loop: the lexer reads the character, the glue takes it while gluing is on, and the column advances unless an error is set; the result is `Step` |
| `JsonContext.Context.ParseText` | src/lib/eina/eina_json.c:641-675 | the character loop, equal to `Feed` on the characters `Cut` selects |
| `JsonContext.Context.Parse` | src/lib/eina/eina_json.c:959-963 | `eina_json_context_parse` |
| `JsonContext.Context.ParseN` | src/lib/eina/eina_json.c:965-970 | `eina_json_context_parse_n`, including the zero-length answer |
| `JsonContext.Context.ResetMachines` | src/lib/eina/eina_json.c:851-864 | the first half of the reset: initial and entry states, no error, empty glue, empty stack |
| `JsonContext.Context.Reset` | src/lib/eina/eina_json.c:848-871 | back to initial and entry states, no error, empty glue of the same size, empty stack, no parent, no root, position 1:1; the nodes that leave the store are exactly the subtree of an unowned old root (none when there is no root or it is owned), and the nodes that stay are untouched |
| `JsonContext.Context.Release` | src/lib/eina/eina_json.c:886-895 | frees the tree that was not taken: exactly the subtree of an unowned root leaves the store, and every node that stays is untouched |
| `JsonContext.Context.DomTreeTake` | src/lib/eina/eina_json.c:928-944 | hands over the root, as `TreeTake` says |
| `JsonContext.ParseDocument` | src/lib/eina/eina_json.c:677-687 | a one-shot parse answers the root exactly when the text completes a document; then the nodes it added are exactly the root's subtree, the root has no parent and the old nodes are untouched; otherwise it answers NULL and the store is as before |
| `JsonContext.JsonParse` | src/lib/eina/eina_json.c:946-950 | `eina_json_parse`: the one-shot parse of the whole text, with the same store guarantee on success and on failure |
| `JsonContext.JsonParseN` | src/lib/eina/eina_json.c:952-957 | `eina_json_parse_n`: a length of 0 gives NULL and leaves the store as it was; otherwise the one-shot parse of that many characters, with the same store guarantee |
| `JsonProperties.SyntaxRunFrame` | src/lib/eina/eina_json.c:257-275 | the syntax machine never changes the lexer state, the glue or the position |
| `JsonProperties.SaxSyntaxRunKeepsTree` | src/lib/eina/eina_json.c:328-335 | with a user callback the grammar never touches the store or the root |
| `JsonProperties.SaxLexRunKeepsTree` | src/lib/eina/eina_json.c:257-269 | the same for one character through the lexer |
| `JsonProperties.SaxFeedHasNoTree` | src/lib/eina/eina_json.c:928-944 | a context with a user callback builds no tree, so taking the tree answers NULL |
| `JsonProperties.TransitionNewline` | src/lib/eina/eina_json.c:462-464 | only the initial state counts a newline; the number states hand a newline on to it |
| `JsonProperties.ApplyLexPosition` | src/lib/eina/eina_json.c:462-464 | a callback moves the position only by counting a newline: one more line, column 0 |
| `JsonProperties.NewlineCounting` | src/lib/eina/eina_json.c:443-611 | one character adds a line exactly when it is a newline read outside a string and keyword, and then sets the column to 0 |
| `JsonProperties.StepPosition` | src/lib/eina/eina_json.c:641-675 | each character adds one column unless it sets an error, so the position of an error names the offending character |
| `JsonProperties.FeedResult` | src/lib/eina/eina_json.c:648-649 | the loop answers true exactly when no error is set at its end; with an error already set it changes nothing and answers false |
| `JsonProperties.FeedConcat` | src/lib/eina/eina_json.c:651-673 | feeding two texts one after the other is feeding their concatenation |
| `JsonProperties.UpToNulOfClean` | src/lib/eina/eina_json.c:651 | a text without NUL is read whole |
| `JsonProperties.ChunkedParse` | src/lib/eina/eina_json.c:959-963 | parsing a text in two pieces leaves the context as parsing it whole |
| `JsonProperties.ChunkedParseN` | src/lib/eina/eina_json.c:965-970 | the same with `parse_n` and lengths |
| `JsonProperties.ZeroLengthParseN` | src/lib/eina/eina_json.c:968 | a zero length reads nothing and answers true exactly when an error is set, the opposite of parsing an empty text |
| `JsonProperties.LexRunGlue` | src/lib/eina/eina_json.c:448-453 | the lexer keeps or empties the glue, never resizes it, and leaves it empty whenever gluing is off |
| `JsonProperties.StepGlue` | src/lib/eina/eina_json.c:655-663 | after every character the glue fits its buffer with room for the NUL, and it is empty when gluing is off |
| `JsonProperties.FeedGlue` | src/lib/eina/eina_json.c:641-675 | the same over any text |
| `JsonProperties.SynCallbackStack` | src/lib/eina/eina_json.c:289-390 | every syntax callback keeps the stack invariant: a pair parent always has a saved frame, and the bottom frame is never a pair |
| `JsonProperties.SyntaxRunStack` | src/lib/eina/eina_json.c:257-275 | the syntax feed loop keeps the stack invariant |
| `JsonProperties.LexRunStack` | src/lib/eina/eina_json.c:257-269 | so does the lexer's feed loop |
| `JsonProperties.FeedStack` | src/lib/eina/eina_json.c:641-675 | so does the character loop |
| `JsonProperties.PopStack` | src/lib/eina/eina_json.c:304-305 | popping a non-empty stack keeps the stack invariant |
| `JsonProperties.FinishValueStack` | src/lib/eina/eina_json.c:348-355 | finishing a value keeps the stack invariant |
| `JsonProperties.FreshIsSound` | src/lib/eina/eina_json.c:848-871 | a new context and a reset context satisfy the glue and stack invariants |
| `JsonCompletion.InitialSkipsExactlyBlanks` | src/lib/eina/eina_json.c:462-466 | between tokens exactly space, tab, CR and newline are skipped without effect, the set in section 2 of RFC 8259 |
| `JsonCompletion.InitialRejects` | src/lib/eina/eina_json.c:455-485 | any other character that starts no token is a lexical error |
| `JsonCompletion.EntryNeedsContainer` | src/lib/eina/eina_json.c:277-287 | only `{` or `[` can start a document (section 2 of RFC 4627); any other first token is a syntax error and changes nothing else |
| `JsonCompletion.CallbackEnds` | src/lib/eina/eina_json.c:300-303 | a callback reaches the end state exactly for a closing bracket in the value state with an empty stack |
| `JsonCompletion.InValueCompletes` | src/lib/eina/eina_json.c:300-303 | from the value state, a token completes the document exactly when it is a closing bracket and the stack is empty |
| `JsonCompletion.ObjectNameNeverCompletes` | src/lib/eina/eina_json.c:374-390 | a token in key position never completes the document |
| `JsonCompletion.SimpleCompletes` | src/lib/eina/eina_json.c:361-424 | from the other states, completion happens exactly through a re-sent closing bracket with an empty stack |
| `JsonCompletion.RootCloseCompletes` | src/lib/eina/eina_json.c:289-432 | a token completes the document exactly when it closes the root: a `}` or `]` reaching the value state with an empty stack, whichever container is open |
| `JsonCompletion.TokenAfterEnd` | src/lib/eina/eina_json.c:426-432 | any token that reaches the end state records PAST_END, whatever the error field held, and the context is no longer completed |
| `JsonCompletion.UnexpectedStops` | src/lib/eina/eina_json.c:434-441 | the unexpected state stops the grammar for good |
| `JsonCompletion.CloseEmittedFromInitial` | src/lib/eina/eina_json.c:457-460 | only the initial state emits closing brackets, and it stays there |
| `JsonCompletion.CompletingLexRun` | src/lib/eina/eina_json.c:257-269 | the character that completes a document leaves the lexer in its initial state |
| `JsonCompletion.CompletingStep` | src/lib/eina/eina_json.c:641-675 | the same for one iteration of the character loop |
| `JsonCompletion.StepAfterEnd` | src/lib/eina/eina_json.c:426-485 | after the end, a blank keeps the document complete without error; a structural character records PAST_END; a character that starts no token is a lexical error and the document stays complete |
| `JsonCompletion.TrailingBlanks` | src/lib/eina/eina_json.c:641-675 | blanks after the end are accepted and the document stays complete |
| `JsonCompletion.BlanksAfterCompletion` | src/lib/eina/eina_json.c:641-675 | once a character completes the document without error, trailing blanks keep the parse successful and complete |
| `JsonMachine.TokenKind` | src/lib/eina/eina_json.c:309-324 | the type reported for a value token is never a pair, and is a container exactly for `{` and `[` |
| `JsonCallbacks.CallbackCalls` | src/lib/eina/eina_json.c:289-390 | one syntax callback makes at most one call, with the current parent and glue |
| `JsonCallbacks.UnexpectedNoCall` | src/lib/eina/eina_json.c:434-441 | the unexpected state makes no call |
| `JsonCallbacks.OneCallPerToken` | src/lib/eina/eina_json.c:257-441 | each token makes at most one call, with the current parent and glue; closing brackets, commas and colons make none |
| `JsonCallbacks.ValueTokenCalls` | src/lib/eina/eina_json.c:328-335 | a value token in value position makes exactly one call, with its type, the current parent and the glue |
| `JsonCallbacks.RootOpenCalls` | src/lib/eina/eina_json.c:277-287 | the first `{` or `[` makes exactly one call, for the root container |
| `JsonCallbacks.KeyCalls` | src/lib/eina/eina_json.c:374-390 | a string in key position makes exactly one pair call, whose text is the key |
| `JsonCallbacks.NullAnswerFails` | src/lib/eina/eina_json.c:332-335 | a NULL answer to a value's call stops the grammar with a syntax error; a non-NULL answer leaves the error alone |
| `JsonCallbacks.NullPairFails` | src/lib/eina/eina_json.c:383-389 | a NULL answer for a key is a syntax error; otherwise the pair becomes the parent and a colon is expected |
| `JsonCallbacks.IssuedGrows` | src/lib/eina/eina_json.c:328-356 | a handle returned earlier stays returned as the log grows |
| `JsonCallbacks.CallKeepsParents` | src/lib/eina/eina_json.c:328-335 | a new call names NULL or a handle returned earlier for a container or pair |
| `JsonCallbacks.PopKeepsParents` | src/lib/eina/eina_json.c:305-306 | popping a frame keeps every parent a returned handle |
| `JsonCallbacks.FinishKeepsParents` | src/lib/eina/eina_json.c:345-355 | so does finishing a value |
| `JsonCallbacks.OpenKeepsParents` | src/lib/eina/eina_json.c:337-344 | so does opening a container |
| `JsonCallbacks.ValueKeepsParents` | src/lib/eina/eina_json.c:289-359 | so does the value callback |
| `JsonCallbacks.NameKeepsParents` | src/lib/eina/eina_json.c:374-390 | so does the key callback |
| `JsonCallbacks.SyntaxRunKeepsParents` | src/lib/eina/eina_json.c:257-275 | so does the syntax feed loop |
| `JsonCallbacks.LexRunKeepsParents` | src/lib/eina/eina_json.c:257-269 | so does the lexer's feed loop |
| `JsonCallbacks.FeedKeepsParents` | src/lib/eina/eina_json.c:641-675 | after any text, every call names NULL or a handle the callback returned earlier for an object, array or pair |
| `JsonCallbacks.FreshParentsKnown` | src/lib/eina/eina_json.c:848-871 | a fresh context has parent NULL and satisfies the parent invariant |
| `JsonLexemes.QuietStep` | src/lib/eina/eina_json.c:558-602 | a character that only glues moves one column and touches nothing on the syntax side |
| `JsonLexemes.OpeningQuote` | src/lib/eina/eina_json.c:468-469 | an opening quote enters the string state with empty glue and is not itself glued |
| `JsonLexemes.OpeningMinus` | src/lib/eina/eina_json.c:473-475 | a minus starts a number lexeme and is glued |
| `JsonLexemes.OpeningRetrans` | src/lib/eina/eina_json.c:471-482 | a digit or `t`, `f`, `n` starts a number or keyword lexeme whose glue is that character |
| `JsonLexemes.EscapeSteps` | src/lib/eina/eina_json.c:563-579 | a backslash and the next character are both glued verbatim and the string goes on |
| `JsonLexemes.StringBodyFeed` | src/lib/eina/eina_json.c:558-579 | a string body is glued verbatim, escapes included, with no token emitted |
| `JsonLexemes.EscapedBodyFeed` | src/lib/eina/eina_json.c:563-579 | the same for a body that starts with an escape |
| `JsonLexemes.PlainBodyFeed` | src/lib/eina/eina_json.c:558-573 | the same for a body that starts with another character |
| `JsonLexemes.StringLexeme` | src/lib/eina/eina_json.c:558-573 | after a quote and a body the glue is the body, without either quote, and the closing quote hands one string token to the grammar |
| `JsonLexemes.StringValueText` | src/lib/eina/eina_json.c:558-573 | a string in value position reaches the callback as one string call whose text is the body |
| `JsonLexemes.NumMove` | src/lib/eina/eina_json.c:487-556 | the number automaton stays among the number states |
| `JsonLexemes.NumberExamples` | src/lib/eina/eina_json.c:487-556 | `-4.67e2` and `007` are numbers (leading zeros are accepted, unlike section 6 of RFC 8259); `1.` is unfinished; `.5` and `+1` start no number |
| `JsonLexemes.NumberContinues` | src/lib/eina/eina_json.c:500-556 | a character the number automaton accepts is glued and moves the lexer as the automaton says |
| `JsonLexemes.NumberFeed` | src/lib/eina/eina_json.c:500-556 | a run of such characters is glued verbatim |
| `JsonLexemes.NumberLexeme` | src/lib/eina/eina_json.c:471-556 | a number lexeme's glue is exactly the text as written |
| `JsonLexemes.NumberEnds` | src/lib/eina/eina_json.c:512-514 | the first character after a complete number hands a number token to the grammar and is re-read in the initial state |
| `JsonLexemes.NumberBroken` | src/lib/eina/eina_json.c:487-544 | a character that an unfinished number cannot take is a lexical error |
| `JsonLexemes.NumberValueText` | src/lib/eina/eina_json.c:500-556 | a number in value position reaches the callback as one number call whose text is the number as written |
| `JsonLexemes.KeywordFeed` | src/lib/eina/eina_json.c:581-602 | the matching letters of a keyword are glued one by one |
| `JsonLexemes.KeywordLexeme` | src/lib/eina/eina_json.c:581-602 | the keyword token is emitted on its last letter, while the glue still lacks that letter |
| `JsonLexemes.TrueValueText` | src/lib/eina/eina_json.c:596-599 | `true` in value position reaches the callback as one boolean call with text `tru` |
| `JsonLexemes.KeywordMismatch` | src/lib/eina/eina_json.c:593-594 | a letter that does not match the keyword is a lexical error |
| `JsonDom.LinkKeepsHeapOk` | src/lib/eina/eina_json.c:231-249 | linking a node to its parent keeps the store well formed |
| `JsonDom.DomBuildKeepsHeapOk` | src/lib/eina/eina_json.c:193-255 | so does the tree builder |
| `JsonDom.DomParentLinks` | src/lib/eina/eina_json.c:231-253 | an array parent gets the node as its last item and becomes its parent, except that an array refuses a pair; object and pair parents link the node without setting its parent; a NULL parent makes the node the root |
| `JsonDom.CallbackKeepsRoot` | src/lib/eina/eina_json.c:250-253 | once a root is set it stays set |
| `JsonDom.ValueKeepsRoot` | src/lib/eina/eina_json.c:289-359 | the value callback keeps the root set |
| `JsonDom.CallbackKeepsRootSet` | src/lib/eina/eina_json.c:277-441 | every syntax callback keeps it |
| `JsonDom.EntryKeepsRoot` | src/lib/eina/eina_json.c:277-287 | the first container sets the root |
| `JsonDom.SyntaxRunKeepsRoot` | src/lib/eina/eina_json.c:257-275 | the syntax feed loop keeps the root invariant |
| `JsonDom.LexRunKeepsRoot` | src/lib/eina/eina_json.c:257-269 | so does the lexer's feed loop |
| `JsonDom.FeedKeepsRoot` | src/lib/eina/eina_json.c:641-675 | so does the character loop |
| `JsonDom.ResetRootSet` | src/lib/eina/eina_json.c:848-871 | a reset context satisfies it |
| `JsonDom.TakeOnce` | src/lib/eina/eina_json.c:928-944 | a completed document yields its non-NULL root once, and a second take yields NULL; an incomplete one yields NULL and changes nothing |
| `JsonDom.RootOpen` | src/lib/eina/eina_json.c:289-344 | the first `{` or `[` creates the root container, which becomes the parent |
| `JsonDom.ArrayItem` | src/lib/eina/eina_json.c:289-359 | a number inside an array is appended to it and the array waits for a comma or `]` |
| `JsonDom.Separator` | src/lib/eina/eina_json.c:392-424 | a comma in an array or a colon after a key leads to the value state and changes nothing else |
| `JsonDom.ObjectKey` | src/lib/eina/eina_json.c:374-390 | a key in a new object creates a pair, which becomes the parent, and the object's frame is saved |
| `JsonDom.ClosePairValue` | src/lib/eina/eina_json.c:300-307 | a closing bracket in the value state of a pair pops the pair's frame and waits for the next member |
| `JsonDom.MismatchedCloseCompletes` | src/lib/eina/eina_json.c:300-303 | `[}` completes a document |
| `JsonDom.TrailingCommaCompletes` | src/lib/eina/eina_json.c:300-303 | `[1,]` completes a document |
| `JsonDom.EmptyPairValue` | src/lib/eina/eina_json.c:300-307 | in `{"a":}` the `}` closes the pair, not the object; only a second `}` completes |
| `FilterInterpolate.CDiv` | src/lib/evas/filters/evas_filter_utils.c:93 | C's integer division truncates towards zero: the remainder has the sign of the dividend and is smaller than the divisor |
| `FilterInterpolate.SegEnd` | src/lib/evas/filters/evas_filter_utils.c:62-65 | a segment ends at the next point's x, or at 256 for the last point |
| `FilterInterpolate.FirstBackwards` | src/lib/evas/filters/evas_filter_utils.c:66 | the first point whose segment would end before it starts, or the point count |
| `FilterInterpolate.Fill` | src/lib/evas/filters/evas_filter_utils.c:67-68 | the entries from x1 up to x2 take the value and every other entry is unchanged |
| `FilterInterpolate.OffsetBetween` | src/lib/evas/filters/evas_filter_utils.c:93 | the ramp offset `(rise * i) / d` for `i < d` lies between 0 and the rise |
| `FilterInterpolate.RampValue` | src/lib/evas/filters/evas_filter_utils.c:93 | a linear entry starts on val1 at x1 and stays between val1 and val2, so it fits a byte without truncation |
| `FilterInterpolate.Ramp` | src/lib/evas/filters/evas_filter_utils.c:92-93 | the entries from x1 up to x2 follow the ramp and every other entry is unchanged |
| `FilterInterpolate.NoneTable` | src/lib/evas/filters/evas_filter_utils.c:58-70 | step mode succeeds exactly when no point is out of order; each segment before the first out-of-order point holds its point's value; entries below the first x, and from the out-of-order point's x on, keep their old value |
| `FilterInterpolate.LinearTable` | src/lib/evas/filters/evas_filter_utils.c:77-95 | linear mode has the same coverage, with each segment's entries on the ramp from its value towards the next point's value |
| `FilterInterpolate.CoverEndMonotone` | src/lib/evas/filters/evas_filter_utils.c:58-66 | the ordered segments from a point on cover the table up to at least that point's segment end |
| `FilterInterpolate.SucceedsIffOrdered` | src/lib/evas/filters/evas_filter_utils.c:58-95 | both modes answer true exactly when the x values never decrease |
| `FilterInterpolate.LinearIdentity` | src/lib/evas/filters/evas_filter_utils.c:77-95 | the points (0, 0) and (255, 255) give the identity table in linear mode |
| `FilterInterpolate.NoPoints` | src/lib/evas/filters/evas_filter_utils.c:54-96 | with no points the table is untouched and both modes succeed |
| `FilterInterpolate.InterpolateNone` | src/lib/evas/filters/evas_filter_utils.c:54-71 | the in-place step fill leaves the table and the answer `NoneFrom` gives |
| `FilterInterpolate.InterpolateLinear` | src/lib/evas/filters/evas_filter_utils.c:73-96 | the in-place linear fill leaves the table and the answer `LinearFrom` gives |
| `FilterInterpolate.InterpolateCubic` | src/lib/evas/filters/evas_filter_utils.c:98-103 | cubic mode fails and writes nothing |
| `FilterInterpolate.Interpolate` | src/lib/evas/filters/evas_filter_utils.c:105-119 | step for NONE, nothing and failure for CUBIC, linear for LINEAR and for every other mode |
| `JsonValue.SubtreeUnique` | src/lib/eina/eina_json.c:1023-1059 | a node has one subtree, so the set of nodes a free removes is determined by the node |
| `JsonValue.NthRemovedLeaf` | src/lib/eina/eina_json.c:750-759 | removing an element that holds no live node takes out that node alone |
| `JsonOwnership.FeedBuilds` | src/lib/eina/eina_json.c:193-255 | the tree builder keeps its invariant over any text: the added nodes are the root's subtree, old nodes are untouched, and the saved parents are live nodes of the tree |
| `JsonOwnership.ParseGrows` | src/lib/eina/eina_json.c:677-687 | a fresh tree-building context that reads any text adds exactly the subtree of its root, a root without parent, and leaves old nodes untouched; with no root the store is unchanged |
| `JsonOwnership.FreeRootRestores` | src/lib/eina/eina_json.c:886-895 | freeing the root's subtree after a parse gives back the store the parse started from |
| `JsonOwnership.DiscardRestores` | src/lib/eina/eina_json.c:677-687 | a context released without its tree taken gives back the store the parse started from |
| `JsonExamples.NumberTexts` | src/tests/eina/eina_test_json.c:180 | `2`, `3.45`, `-1` and `0.50` are the packed texts of 2.0, 3.45, -1 and 0.5 |
| `JsonExamples.ExponentNumber` | src/tests/eina/eina_test_json.c:91 | `-4.67e2` reads as -467 and prints back as `-467` |
| `JsonExamples.SmallObjectRoundTrip` | src/tests/eina/eina_test_json.c:253-256 | `{"a":1}` read into an empty store completes with the object as root, and its packed text is the text read |
| `JsonExamples.ChunkedSmallObject` | src/tests/eina/eina_test_json.c:314-325 | `{"a":1` leaves the context unfinished with no error at column 7, and the chunk `}` completes it one column further on |

## Left out

- Floating point. A number's text becomes a `real` through `Atof`, an exact
  decimal reading that stands in for `atof` (the tree builder takes the
  conversion as a parameter). The printer's `%.2f` is modelled
  on exact reals with round-half-even, and `%ld` assumes the value fits a
  `long`.
- JsonPrint.NumberTextShape: states the shape of the text of a non-integral
  number, not its digits, because C prints a `double` and its digits depend
  on binary floating point.
- Bytes. C reads the text one `char` (byte) at a time (eina_json.c:651-669),
  and the model reads a `string` one `char` at a time. A non-ASCII character
  in C is several UTF-8 bytes, each of which advances the column, whereas
  the model counts it once; characters above 255 have no C counterpart.
  The model is faithful for texts whose characters are all below 256, read
  as bytes.
- Embedded NUL in strings. The setters and constructors copy a string with
  `eina_strbuf_append` (eina_json.c:992, 1080), which stops at the first
  NUL; the model keeps the whole `string`, so it matches C only for
  NUL-free strings. The parser itself does stop at a NUL (`Cut`).
- The general parse-print round trip. That the packed print of a parsed
  tree reads back to the same tree is proved only for the text `{"a":1}`
  (JsonExamples.SmallObjectRoundTrip), with NumberTexts and ExponentNumber
  for the number texts of the test suite. A proof for all trees would need
  an induction over the feed loop through the text of every printable
  tree; it holds only for trees whose strings and keys have no quote,
  backslash or NUL (the printer escapes nothing, eina_json.c:788-799) and
  whose numbers print back to themselves, which non-integral numbers need
  not do under `%.2f`.
- Allocation failures (`calloc`, `realloc`, `eina_strbuf_new`,
  `eina_array_new` returning NULL), EINA_LOG output and the EINA_SAFETY
  checks. Only their return values are kept. So a NULL user callback for
  `eina_json_context_sax_new` is not modelled, and the mode carries a
  callback function instead.
- `str` and `head` in the context only point into the caller's text. They
  are not state that any query reads, so the model drops them.
- Eina_Strbuf, Eina_Inlist, Eina_Array and Eina_Iterator are sequences. The
  iterator constructors answer the child sequence.
- Calls through pointers that C would dereference as NULL or as a freed node
  are answered with NULL (`Nil`) or left alone, not modelled as crashes. A
  dangling parent handle in the tree builder is one case: the node is then
  left unlinked.
- JsonValue.Store.TypeGet, NumberGet, StringGet, BooleanGet, PairNameGet,
  PairValueGet, ObjectCount and ArrayCount are plain reads of the node, with
  the C fallback for a mismatched type (false, 0 or NULL). They carry no
  contract of their own; the setters, removals and appends state their
  results through them.
- The context queries `line_get`, `column_get`, `error_get`,
  `completed_get` and `unfinished_get` are plain reads of `Parser`
  (`line`, `col`, `error`, `Completed`, `Unfinished`). The lemmas above state
  their properties.
- The theme-file merger (`edje_pick`) and `evas_filter_buffer_scaled_get`
  are not part of this model. They are file I/O, option parsing and
  rendering-engine calls.
- The numeric values of `Evas_Filter_Interpolation_Mode` are not in the
  source, so the mode is a datatype with a catch-all case for unrecognised
  values.
- FilterInterpolate.InterpolateNone and InterpolateLinear require
  `2 * point_count` bytes of points and a 256-entry table. C reads and
  writes out of bounds otherwise, which is undefined.
