# Tucker and Nipper, modelled in Dafny

This project models the core of `net.jextra.tucker`, which holds two small template languages.

**Tucker** writes HTML from indentation-based templates.
- `TuckerParser` reads the template a line at a time and dispatches on the first non-blank character. A line starting with `/` or `#` is a comment, `=name` starts a block, `>name` is an insertion point, and any other line is a tag. A tag line is the tag name with its shortcuts (`div.class#id`), then space-separated attributes (`key="value"` or a bare `key`), then an optional pipe (`|`) followed by text in which `{..}` holds an inline tag. Before a tag line is lexed, the specials `$name` / `$(name)` (variables), `&name` / `&(name)` (booleans) and `` `phrase` `` are replaced by reserved marker characters, and a backslash escapes the next character. Indentation then decides which node is the parent of which.
- `NodeWriter` first *hardens* a block. Hardening substitutes the variables, booleans and phrases of the scope in force. It drops an attribute only when its name comes out null or blank or its value comes out null (a value that comes out as the empty string is kept). It keeps every text segment and drops an inline segment only when its tag hardens to no node. It lets hooks bound to a tag replace that tag. The writer then prints the hardened tree as HTML.
- `ScopeContext` keeps the stack of `Scope`s (variables, booleans and `HookBinding`s).
- `OutputState` carries the output variables and the indentation depth.
- `Encoder` and `CharacterMap` escape text for HTML.
- The node tree is `Block`, `TagNode`, `InsertionNode` and `RawTextNode` under `Node`, together with `Attribute` and `Segment`.

**Nipper** is a CSS preprocessor.
- `NReader` reads lines of nested selectors, variable definitions (`$name: value`, split at the first colon) and properties (`name: value;`) into an `NBlock`, a tree of `NLine`s.
- `NPrinter` prints it as flat CSS. It expands each nested selector into the product of its parent's comma-separated selectors and its own, and substitutes the variables in property values.

How the model is laid out:
- Nodes, attributes, segments, scopes and hook bindings are immutable values.
- The objects whose fields the code updates during a parse or a render are classes: the parser, the scope context, the node writer, the output state and its writer, the Nipper block, reader and printer. Their methods are proved against functions that specify them.
- The lines of an `NBlock` live in an arena. A line's parent and children are indices into that arena, and a parent always comes before its children.
- Input is a sequence of lines. Output is a string that the writer methods append to.
- Hooks are identifiers, and their behaviour is a function passed in. The translator is an optional map.

## Model

| member | source | states |
|---|---|---|
| CharacterMap.Invert | src/main/java/net/jextra/tucker/encoder/CharacterMap.java:10-18 | the inverted map's keys are exactly the values of the input, and each maps back to a key that holds it; when no two keys share a value it is the exact inverse, with as many entries as the input |
| CharacterMap.Inverse | src/main/java/net/jextra/tucker/encoder/CharacterMap.java:13-15 | once every entry has been put, the keys are exactly the input's values and, for an injective input, each value maps back to its own key |
| Encoder.EncodeForHtml | src/main/java/net/jextra/tucker/encoder/Encoder.java:5-29 | null comes back null and the empty string comes back unchanged; any other string is escaped character by character with the entity table |
| Encoder.EncodedConcat | src/main/java/net/jextra/tucker/encoder/Encoder.java:9-23 | escaping is per character: the escape of a concatenation is the concatenation of the escapes |
| Encoder.EncodedNotShorter | src/main/java/net/jextra/tucker/encoder/Encoder.java:9-23 | when no table entry is empty, the escaped text is never shorter than the input |
| Encoder.EncodedPlain | src/main/java/net/jextra/tucker/encoder/Encoder.java:20-22 | text with no table character and no character code from 0x80 to 0xFE is left exactly as it is |
| Encoder.HexReference | src/main/java/net/jextra/tucker/encoder/Encoder.java:15-19 | a character in that range with no table entry becomes the six characters `&#x`, two upper-case hex digits and `;`, whose digits spell the character's code |
| Attributes.AttributeText | src/main/java/net/jextra/tucker/tucker/Attribute.java:66-69 | the text is the key, `=`, then the value (`null` for a null value); for a key without `=` the first `=` sits right after the key, so key and value can be read back |
| Attributes.Keys | src/main/java/net/jextra/tucker/tucker/TagNode.java:39-50 | the keys of the attribute map, in insertion order, one per entry |
| Attributes.IndexOfKey | src/main/java/net/jextra/tucker/tucker/TagNode.java:209-211 | the position of the entry under a key, or -1 exactly when the key is absent |
| Attributes.Get | src/main/java/net/jextra/tucker/tucker/TagNode.java:211 | a lookup finds an entry exactly when the key is present, and the entry found carries that key |
| Attributes.UpdateAt | src/main/java/net/jextra/tucker/tucker/TagNode.java:218 | changing the value of an existing entry in place keeps the key order and every other lookup |
| Attributes.AppendFresh | src/main/java/net/jextra/tucker/tucker/TagNode.java:221-225 | putting a fresh key appends it to the key order and leaves every other lookup alone |
| Attributes.AddAttribute | src/main/java/net/jextra/tucker/tucker/TagNode.java:206-226 | a new key is appended with its value; an existing key whose value is null or empty leaves the map unchanged; otherwise the stored value becomes the old value, a space and the new one (`null` for a null value); no other key changes and keys stay unique |
| Attributes.RemoveAttribute | src/main/java/net/jextra/tucker/tucker/TagNode.java:228-231 | returns the entry that was stored (null when absent, and then nothing changes); afterwards the key is gone and every other lookup is unchanged |
| Attributes.RemoveFacts | src/main/java/net/jextra/tucker/tucker/TagNode.java:230 | taking out the entry of a key leaves every other lookup alone, keeps keys unique and removes the key |
| Attributes.Without | src/main/java/net/jextra/tucker/tucker/TagNode.java:230 | one entry fewer, the others in their order |
| Attributes.SetAttribute | src/main/java/net/jextra/tucker/tucker/TagNode.java:290-297 | afterwards the key holds exactly the new value and has moved to the end of the key order (the order the attributes are written in), keys stay unique and every other lookup is unchanged |
| Attributes.ValueOf | src/main/java/net/jextra/tucker/tucker/TagNode.java:299-304 | null when the key is absent; otherwise the value of the entry stored under the key |
| Attributes.HasStyleClassAsWritten | src/main/java/net/jextra/tucker/tucker/TagNode.java:271-288 | throws exactly when a `class` attribute is present with a null value |
| Attributes.HasStyleClassAgrees | src/main/java/net/jextra/tucker/tucker/TagNode.java:271-288 | wherever the method as written returns, its answer is the corrected class test's |
| Attributes.BareClassThrows | src/main/java/net/jextra/tucker/tucker/TagNode.java:279 | a bare `class` attribute makes the method as written throw, where the corrected test answers false |
| Attributes.AddStyleClass | src/main/java/net/jextra/tucker/tucker/TagNode.java:233-269 | reports false, changing nothing, exactly when a non-empty class value already holds the class as a token; otherwise a missing attribute is created, a null or empty value is set to the class and any other value gets a space and the class appended; no other key changes |
| Attributes.TokensAfterAppend | src/main/java/net/jextra/tucker/tucker/TagNode.java:260 | appending a space and a class name adds exactly that name as the last token |
| Attributes.AddStyleClassHas | src/main/java/net/jextra/tucker/tucker/TagNode.java:236-288 | after adding a proper class name the element has that class |
| Attributes.AddStyleClassKeeps | src/main/java/net/jextra/tucker/tucker/TagNode.java:236-288 | adding a class never takes another class away |
| Tree.NewNode | src/main/java/net/jextra/tucker/tucker/Block.java:44-48 | a node of the given kind with no name, text, attributes, segments, children or variables, not inline, not auto, at indent 0 |
| Tree.Named | src/main/java/net/jextra/tucker/tucker/TagNode.java:55-59 | a node of the given kind carrying the name and nothing else |
| Tree.RawTextOf | src/main/java/net/jextra/tucker/tucker/RawTextNode.java:42-46 | a raw-text node holding the text and no children |
| Tree.NewSegment | src/main/java/net/jextra/tucker/tucker/Segment.java:51-71 | a segment of the given type and value with no inline tag |
| Tree.SegmentAppend | src/main/java/net/jextra/tucker/tucker/Segment.java:108-113 | the value becomes the old value followed by the text, each printed as Java concatenation prints it (`null` for null); type and inline tag unchanged |
| Tree.SegmentText | src/main/java/net/jextra/tucker/tucker/Segment.java:126-130 | the text is `[`, the type's name, `] ` and the value, so the type and value can be read back from it |
| Tree.AddAttribute | src/main/java/net/jextra/tucker/tucker/Node.java:90-98 | blocks and raw text ignore the attribute; tags and insertion points merge it into their attributes by the attribute-merge rule |
| Tree.AddSegment | src/main/java/net/jextra/tucker/tucker/Node.java:100-103 | only a tag appends the segment, keeping its children and attributes; any other node ignores it |
| Tree.AddChild | src/main/java/net/jextra/tucker/tucker/TagNode.java:327-330 | the child goes last; nothing else changes |
| Tree.GetId | src/main/java/net/jextra/tucker/tucker/TagNode.java:299-304 | null when there is no `id` attribute; otherwise the value stored under `id` |
| Tree.Clone | src/main/java/net/jextra/tucker/tucker/Node.java:60-78 | a node of the same kind at indent 0, not auto; a block keeps its name and variables, tags and insertion points keep name and attributes, a tag keeps its segments, raw text keeps its text, and every child is replaced by its own clone |
| Tree.CloneIdempotent | src/main/java/net/jextra/tucker/tucker/Block.java:57-70 | cloning a clone gives the same tree again: a copy loses nothing a second copy could carry |
| Tree.AddNode | src/main/java/net/jextra/tucker/tucker/Block.java:113-121 | a null node throws; otherwise it is appended to the block's nodes, with name and variables unchanged |
| Tree.GetVariable | src/main/java/net/jextra/tucker/tucker/Block.java:151-154 | null for a name that was never set |
| Tree.SetVariable | src/main/java/net/jextra/tucker/tucker/Block.java:156-161 | the name now reads the new value and every other name reads what it did |
| Tree.ClearNodes | src/main/java/net/jextra/tucker/tucker/Block.java:141-144 | no nodes are left; name and variables unchanged |
| Tree.InsertionInsert | src/main/java/net/jextra/tucker/tucker/InsertionNode.java:165-178 | a null node throws; otherwise it becomes the last child, with name and auto flag unchanged |
| Tree.RawTextAppend | src/main/java/net/jextra/tucker/tucker/RawTextNode.java:85-88 | the text becomes the old text followed by the extra, each printed as Java concatenation prints it |
| Tree.RawTextWrite | src/main/java/net/jextra/tucker/tucker/RawTextNode.java:69-73 | a null text throws; otherwise exactly the text is appended to the output |
| TreeSearch.Inserted | src/main/java/net/jextra/tucker/tucker/TagNode.java:332-356 | one child out per child in: a tag is filled recursively, an insertion point with the name gains the node as its last child, anything else is left alone |
| TreeSearch.Insert | src/main/java/net/jextra/tucker/tucker/Block.java:163-187 | the loop fills the children as `Inserted` says and counts exactly the insertion points that received the node |
| TreeSearch.UninsertInsert | src/main/java/net/jextra/tucker/tucker/TagNode.java:332-356 | inserting adds exactly one last child to each reachable matching point and changes nothing else: removing those children gives back the tree as it was |
| TreeSearch.InsertKeepsPoints | src/main/java/net/jextra/tucker/tucker/TagNode.java:345-351 | filling never creates or removes insertion points, so a second insert reports the same count |
| TreeSearch.RootPointFilled | src/main/java/net/jextra/tucker/tucker/Block.java:175-182 | a matching insertion point at the top level ends with the node as its last child and is still a matching point |
| TreeSearch.FiveInserts | src/test/java/net/jextra/tucker/BasicTest.java:101-110 | five inserts of a clone into a block with one top-level point named `item` give that point five children, in insertion order, each insert counting one |
| TreeSearch.OnePoint | src/main/java/net/jextra/tucker/tucker/InsertionNode.java:165-172 | a lone matching insertion point just gains the node as its last child |
| TreeSearch.FirstElement | src/main/java/net/jextra/tucker/tucker/TagNode.java:358-370 | null exactly when no child is a tag; otherwise the first child that is a tag |
| TreeSearch.FirstSpec | src/main/java/net/jextra/tucker/tucker/Block.java:128-139 | the search result is the earliest match, and null exactly when nothing matches |
| TreeSearch.FindFirstElementByClass | src/main/java/net/jextra/tucker/tucker/TagNode.java:372-396 | the first tag, in pre-order over tag children only, that has the class; null when there is none (with the corrected class test) |
| TreeSearch.FindFirstElementByClassAsWritten | src/main/java/net/jextra/tucker/tucker/TagNode.java:372-396 | with the class test as written: throws exactly when the scan reaches a tag with a bare `class` attribute before any tag with the class; whenever it returns, it returns the corrected search's tag |
| TreeSearch.FindFirstElementByClassThrows | src/main/java/net/jextra/tucker/tucker/TagNode.java:279 | a bare `class` tag ahead of a `span class="x"`: the search as written throws, where the corrected search finds the span |
| TreeSearch.FindByElementIdAsWritten | src/main/java/net/jextra/tucker/tucker/Block.java:244-279 | throws exactly when the pre-order scan reaches a tag without an id before any tag with the id; when it returns, it returns the first tag with the id |
| TreeSearch.FindByElementIdThrows | src/main/java/net/jextra/tucker/tucker/Block.java:250 | a block whose first tag has no id makes the method as written throw, though the next tag has the id sought |
| TreeSearch.FindByElementId | src/main/java/net/jextra/tucker/tucker/Block.java:189-201 | the first tag in pre-order, through tag and insertion-point children, whose id is the one sought; null when there is none |
| TreeSearch.FindByElementIdAgrees | src/main/java/net/jextra/tucker/tucker/Block.java:189-279 | wherever the method as written returns normally, it returns what the corrected search does |
| Scopes.GetVariable | src/main/java/net/jextra/tucker/tucker/Scope.java:93-96 | null for a name that was never set |
| Scopes.EncodeValue | src/main/java/net/jextra/tucker/tucker/Scope.java:154 | escaping keeps null as null and the empty string as it is |
| Scopes.SetVariable | src/main/java/net/jextra/tucker/tucker/Scope.java:98-101 | the name is set and reads the value, HTML-escaped when encoding is asked for; every other variable, the booleans and the bindings are unchanged |
| Scopes.Present | src/main/java/net/jextra/tucker/tucker/Scope.java:107-112 | the values the joining loop keeps: no more than given, and none empty when none of the given ones is |
| Scopes.JoinValues | src/main/java/net/jextra/tucker/tucker/Scope.java:103-122 | the builder loop produces the joined value: null when no value is present, otherwise the present values with a space before each one that follows non-empty text |
| Scopes.JoinedNone | src/main/java/net/jextra/tucker/tucker/Scope.java:121 | the joined value is null exactly when every value is null |
| Scopes.JoinedSpaces | src/main/java/net/jextra/tucker/tucker/Scope.java:113-117 | when no present value is empty, the result is the present values joined with single spaces |
| Scopes.SetVariables | src/main/java/net/jextra/tucker/tucker/Scope.java:103-122 | the name reads the joined text, HTML-escaped |
| Scopes.SetVariableCollection | src/main/java/net/jextra/tucker/tucker/Scope.java:124-148 | a null collection sets the name to null; otherwise it behaves as the variadic form over the same values |
| Scopes.Clear | src/main/java/net/jextra/tucker/tucker/Scope.java:77-81 | no variable and no boolean is left, every boolean reads false, and the bindings stay |
| Scopes.GetBoolean | src/main/java/net/jextra/tucker/tucker/Scope.java:169-172 | a boolean that was never set reads false |
| Scopes.SetBoolean | src/main/java/net/jextra/tucker/tucker/Scope.java:174-189 | the name is set and reads the value; every other boolean, the variables and the bindings are unchanged |
| Scopes.ClearBoolean | src/main/java/net/jextra/tucker/tucker/Scope.java:179-183 | the name is no longer set and reads false; everything else is unchanged |
| Scopes.Bind | src/main/java/net/jextra/tucker/tucker/Scope.java:191-194 | one binding more, at the end, for the hook and the parsed selector; the earlier bindings, variables and booleans are unchanged |
| ScopeContexts.FirstHookSpec | src/main/java/net/jextra/tucker/tucker/ScopeContext.java:146-157 | with the corrected match: the hook found is that of the first accepting binding, and nothing is found exactly when no binding accepts |
| ScopeContexts.FirstHookAsWritten | src/main/java/net/jextra/tucker/tucker/ScopeContext.java:146-157 | the scan with `matches` as written: whenever it answers, it answers as the corrected scan; a candidate that has an id never makes it throw |
| ScopeContexts.FirstHookAsWrittenThrows | src/main/java/net/jextra/tucker/tucker/HookBinding.java:103 | the scan throws exactly when a binding of the candidate's tag name that names an id, faced with a candidate without one, comes before any accepting binding |
| ScopeContexts.FirstHookWithoutIdThrows | src/main/java/net/jextra/tucker/tucker/HookBinding.java:103 | a `div#x` binding and a `<div>` with no id: the scan as written throws, where the corrected scan finds no hook |
| ScopeContexts.ScopeContext.constructor | src/main/java/net/jextra/tucker/tucker/ScopeContext.java:44-47 | an empty stack at indent 0 |
| ScopeContexts.ScopeContext.Copy | src/main/java/net/jextra/tucker/tucker/ScopeContext.java:49-57 | the same scopes in the same order and the same indent |
| ScopeContexts.ScopeContext.Push | src/main/java/net/jextra/tucker/tucker/ScopeContext.java:67-70 | the scope goes on top of the stack; the indent is unchanged |
| ScopeContexts.ScopeContext.Pop | src/main/java/net/jextra/tucker/tucker/ScopeContext.java:72-75 | the top scope is removed and returned; an empty stack throws and stays empty |
| ScopeContexts.ScopeContext.GetVariable | src/main/java/net/jextra/tucker/tucker/ScopeContext.java:77-95 | the variable as the top scope holds it, null on an empty stack; scopes below the top are never consulted |
| ScopeContexts.ScopeContext.GetBoolean | src/main/java/net/jextra/tucker/tucker/ScopeContext.java:97-115 | the boolean as the top scope holds it, false on an empty stack |
| ScopeContexts.ScopeContext.SetIndent | src/main/java/net/jextra/tucker/tucker/ScopeContext.java:122-125 | the indent is set and the stack is unchanged |
| ScopeContexts.ScopeContext.GetIndentWhitespace | src/main/java/net/jextra/tucker/tucker/ScopeContext.java:132-141 | the builder loop produces two spaces for each of `indent + extra` levels, nothing when that is not positive |
| ScopeContexts.ScopeContext.FindHook | src/main/java/net/jextra/tucker/tucker/ScopeContext.java:146-157 | the loop computes `FirstHookAsWritten` on the top scope's bindings: the hook of the first binding that matches the tag name, id and classes, none when none does, and the `matches` exception where it throws |
| ScopeContexts.PushPopRestores | src/main/java/net/jextra/tucker/tucker/ScopeContext.java:67-75 | a push followed by a pop hands back the pushed scope and leaves the stack and indent as they were |
| ScopeContexts.TopOnly | src/main/java/net/jextra/tucker/tucker/ScopeContext.java:88-92 | lookups see the top scope only: whatever lies beneath it, a variable or boolean reads as the top scope has it |
| ScopeContexts.EmptyStack | src/main/java/net/jextra/tucker/tucker/ScopeContext.java:88-94 | an empty stack shows no variable and every boolean as false |
| ScopeContexts.IndentIsSpaces | src/main/java/net/jextra/tucker/tucker/ScopeContext.java:35 | the indent text is spaces only, two per level |
| HookBindings.ParseSelector | src/main/java/net/jextra/tucker/tucker/HookBinding.java:133-190 | the scanning loop over the trimmed selector produces the selector's reading: characters go to the tag name until `#` (id) or `.` (a class), a non-empty class is collected at each `.` and at the end; the id is never empty, no class is empty and the tag name holds no `#` or `.` |
| HookBindings.NewBinding | src/main/java/net/jextra/tucker/tucker/HookBinding.java:26-31 | the binding holds the hook and the parsed selector |
| HookBindings.ScanName | src/main/java/net/jextra/tucker/tucker/HookBinding.java:160-175 | a run of name characters is appended to whichever part the scanner is in |
| HookBindings.ParseFormat | src/main/java/net/jextra/tucker/tucker/HookBinding.java:133-190 | round trip: parsing `tag#id.c1.c2` written from a tag name, an optional id and class names gives back that tag name, id and set of classes |
| HookBindings.Matches | src/main/java/net/jextra/tucker/tucker/HookBinding.java:96-117 | true exactly when the tag names are equal, the binding names no id or the candidate has that id, and every class of the binding is among the candidate's (a candidate without an id does not match a binding that names one) |
| HookBindings.MatchesAsWritten | src/main/java/net/jextra/tucker/tucker/HookBinding.java:96-117 | throws exactly when the tag names agree, the binding names an id and the candidate has none; whenever it returns, its answer is the corrected one's |
| HookBindings.MatchesWithoutIdThrows | src/main/java/net/jextra/tucker/tucker/HookBinding.java:103 | a binding for `div#x` matched against a `div` without an id throws as written, where the corrected test rejects it |
| HookBindings.MatchesSelector | src/main/java/net/jextra/tucker/tucker/HookBinding.java:83-89 | the selector is parsed and handed to `matches` as written: it throws exactly when the selector's tag name is the binding's, the binding names an id and the selector has none; otherwise it answers whether the binding accepts the selector's tag name, id and classes |
| HookBindings.MatchesSelectorWithoutIdThrows | src/main/java/net/jextra/tucker/tucker/HookBinding.java:103 | `"div"` parses to the tag `div` with no id and no class, and a `div#x` binding asked about it throws |
| HookBindings.AcceptsMoreClasses | src/main/java/net/jextra/tucker/tucker/HookBinding.java:108-114 | classes are a subset test: a candidate that carries extra classes still matches |
| HookBindings.SelectorExample | src/main/java/net/jextra/tucker/tucker/HookBinding.java:133-190 | `div#x.y` reads as tag `div`, id `x` and the one class `y` |
| HookBindings.AcceptsExample | src/main/java/net/jextra/tucker/tucker/HookBinding.java:96-117 | a binding for `div#x.y` accepts a `div#x` carrying classes `y` and `z` and rejects one with no class |
| OutputStates.Placeholder | src/main/java/net/jextra/tucker/tucker/OutputState.java:145 | the sentinel form of a variable is `\u0003`, the name, `\u0004` |
| OutputStates.Bind | src/main/java/net/jextra/tucker/tucker/OutputState.java:103-113 | a value binds the name to it, null unbinds the name; every other name is unchanged |
| OutputStates.Indentation | src/main/java/net/jextra/tucker/tucker/OutputState.java:120-126 | two spaces per level, nothing for a depth that is not positive |
| OutputStates.LastClose | src/main/java/net/jextra/tucker/tucker/OutputState.java:147 | where the greedy `.*\u0004` after a `\u0003` stops: the last `\u0004` before the first line terminator, or -1 exactly when there is none |
| OutputStates.Stripped | src/main/java/net/jextra/tucker/tucker/OutputState.java:147 | deleting spans never lengthens the text or adds a character, and a text without `\u0003` is unchanged |
| OutputStates.Processed | src/main/java/net/jextra/tucker/tucker/OutputState.java:133-150 | null stays null and a string stays a string |
| OutputStates.StrippedNoSpan | src/main/java/net/jextra/tucker/tucker/OutputState.java:147 | after the deletion the pattern `\u0003.*\u0004` matches nowhere |
| OutputStates.StrippedUnfold | src/main/java/net/jextra/tucker/tucker/OutputState.java:147 | one step of the deletion: a span starting at the first character is dropped, any other first character is kept |
| OutputStates.BracedPlaceholder | src/main/java/net/jextra/tucker/tucker/OutputState.java:140-141 | the brace sentinels leave the placeholder of a plain name alone |
| OutputStates.OtherPlaceholderAbsent | src/main/java/net/jextra/tucker/tucker/OutputState.java:143-146 | the placeholder of one plain name never contains that of another, so replacing one cannot touch another |
| OutputStates.ReplacePlaceholder | src/main/java/net/jextra/tucker/tucker/OutputState.java:145 | a placeholder replaced by a value gives the value |
| OutputStates.SubstitutedPlain | src/main/java/net/jextra/tucker/tucker/OutputState.java:143-146 | replacing placeholders in a text without `\u0003` changes nothing |
| OutputStates.SubstitutedBound | src/main/java/net/jextra/tucker/tucker/OutputState.java:143-146 | the placeholder of a name among the keys becomes its value; that of any other name is left alone |
| OutputStates.StrippedPlaceholder | src/main/java/net/jextra/tucker/tucker/OutputState.java:147 | the placeholder of an unbound plain name is one whole span, and is deleted |
| OutputStates.PlaceholderPrints | src/main/java/net/jextra/tucker/tucker/OutputState.java:133-150 | a variable prints as its value when bound and as nothing when unbound |
| OutputStates.ProcessedClean | src/main/java/net/jextra/tucker/tucker/OutputState.java:133-150 | when no value carries a brace sentinel, no brace sentinel and no span survives processing |
| OutputStates.SubstitutedAbsent | src/main/java/net/jextra/tucker/tucker/OutputState.java:143-146 | a character absent from the text and from every value is absent after substitution |
| OutputStates.BindThenGet | src/main/java/net/jextra/tucker/tucker/OutputState.java:98-113 | a name read back after setting it gives the value just set, or null after null |
| OutputStates.Writer.Print | src/main/java/net/jextra/tucker/tucker/OutputState.java:124 | printing appends the text to what the writer holds |
| OutputStates.OutputState.constructor | src/main/java/net/jextra/tucker/tucker/OutputState.java:44-48 | a state on the writer at depth 0 with no variables |
| OutputStates.OutputState.Copy | src/main/java/net/jextra/tucker/tucker/OutputState.java:50-63 | a state on the same writer with the other's variables and the given depth |
| OutputStates.OutputState.SetWriter | src/main/java/net/jextra/tucker/tucker/OutputState.java:78-81 | the writer is replaced; depth and variables unchanged |
| OutputStates.OutputState.SetDepth | src/main/java/net/jextra/tucker/tucker/OutputState.java:88-91 | the depth is set; writer and variables unchanged |
| OutputStates.OutputState.ClearVariableValues | src/main/java/net/jextra/tucker/tucker/OutputState.java:93-96 | no variable is left; writer and depth unchanged |
| OutputStates.OutputState.VariableValue | src/main/java/net/jextra/tucker/tucker/OutputState.java:98-101 | the value bound to the name, or null when it is unbound |
| OutputStates.OutputState.SetVariableValue | src/main/java/net/jextra/tucker/tucker/OutputState.java:103-113 | the variables become the old ones with the name bound to the value, or unbound for null |
| OutputStates.OutputState.WriteIndentAt | src/main/java/net/jextra/tucker/tucker/OutputState.java:120-126 | the loop appends exactly the indentation of the given depth to the shared writer |
| OutputStates.OutputState.WriteIndent | src/main/java/net/jextra/tucker/tucker/OutputState.java:115-118 | the indentation of the state's own depth is appended |
| OutputStates.OutputState.ProcessString | src/main/java/net/jextra/tucker/tucker/OutputState.java:133-150 | the method's loop over the keys computes `Processed`: braces restored, each bound placeholder replaced by its value, then every remaining span deleted |
| OutputStates.OutputState.WriteString | src/main/java/net/jextra/tucker/tucker/OutputState.java:128-131 | a null value throws and writes nothing; otherwise the processed text is appended to the writer |
| Cleaning.VarPass | src/main/java/net/jextra/tucker/tucker/NodeWriter.java:160-178 | the variable loop ends when the pattern no longer matches; the replaced and unset counts only grow, and a string that does not match is left as it is |
| Cleaning.VarPassStep | src/main/java/net/jextra/tucker/tucker/NodeWriter.java:164-178 | each round removes one `\u0004`, so the loop ends, and the loop from the next string gives the same result |
| Cleaning.BoolPass | src/main/java/net/jextra/tucker/tucker/NodeWriter.java:183-199 | the boolean loop ends when its pattern no longer matches; the counts only grow, and a string that does not match is left as it is |
| Cleaning.BoolPassStep | src/main/java/net/jextra/tucker/tucker/NodeWriter.java:185-199 | each round removes one boolean end marker, so the loop ends, and the loop from the next string gives the same result |
| Cleaning.Translate | src/main/java/net/jextra/tucker/tucker/NodeWriter.java:263-281 | without a translator, or without a translation for the source, the source comes back unchanged |
| Cleaning.PhrasePass | src/main/java/net/jextra/tucker/tucker/NodeWriter.java:204-212 | the phrase loop ends when no phrase is left; a string without one is left as it is |
| Cleaning.Finish | src/main/java/net/jextra/tucker/tucker/NodeWriter.java:183-216 | after the boolean loop, the phrase loop and the marker stripping, no phrase marker is left |
| Cleaning.Clean | src/main/java/net/jextra/tucker/tucker/NodeWriter.java:141-227 | null stays null; otherwise the result is null exactly when no placeholder was replaced, exactly one was unset and the text left is blank, and otherwise it is the substituted text, with no phrase marker in it |
| Cleaning.EscapeRemoves | src/main/java/net/jextra/tucker/tucker/NodeWriter.java:151-155 | after the escapes no brace or backtick sentinel and no raw `<` or `>` is left |
| Cleaning.CleanPlain | src/main/java/net/jextra/tucker/tucker/NodeWriter.java:141-227 | plain text comes out unchanged, whatever the scopes and translator |
| Cleaning.OneVariable | src/main/java/net/jextra/tucker/tucker/NodeWriter.java:164-178 | a text with one variable placeholder: the placeholder becomes the top scope's value (one replaced) or is deleted (one unset) |
| Cleaning.OneBoolean | src/main/java/net/jextra/tucker/tucker/NodeWriter.java:185-199 | a text with one boolean placeholder: the placeholder becomes its own name when the boolean is true (one replaced) and is deleted otherwise (one unset) |
| Cleaning.OnePhrase | src/main/java/net/jextra/tucker/tucker/NodeWriter.java:208-211 | a text with one phrase: the phrase becomes its translation |
| Cleaning.CleanBoundVariable | src/main/java/net/jextra/tucker/tucker/NodeWriter.java:141-227 | a placeholder on its own, for a variable the top scope holds, becomes that value |
| Cleaning.CleanUnsetVariable | src/main/java/net/jextra/tucker/tucker/NodeWriter.java:218-224 | a placeholder on its own, for a variable the top scope does not hold, makes the whole result null |
| Cleaning.CleanUnsetInText | src/main/java/net/jextra/tucker/tucker/NodeWriter.java:218-224 | text around an unset variable keeps the result from being null: the placeholder is only deleted |
| Cleaning.CleanBoolean | src/main/java/net/jextra/tucker/tucker/NodeWriter.java:183-199 | a boolean placeholder shows its own name when the boolean is true and nothing when it is not |
| Cleaning.CleanPhrase | src/main/java/net/jextra/tucker/tucker/NodeWriter.java:204-216 | a lone phrase becomes its translation, and the markers never survive |
| Hardening.HardenAttribute | src/main/java/net/jextra/tucker/tucker/NodeWriter.java:420-448 | the attribute is dropped exactly when its key cleans to null or blank, or its value is set and cleans to null; otherwise it keeps the cleaned key and the cleaned value (a bare key stays bare) |
| Hardening.HardenAttributes | src/main/java/net/jextra/tucker/tucker/NodeWriter.java:404-407 | the hardened attributes are stored under distinct keys |
| Hardening.Merge | src/main/java/net/jextra/tucker/tucker/NodeWriter.java:404-407 | adding a hardened attribute keeps the keys distinct; a null one is skipped |
| Hardening.StyleClasses | src/main/java/net/jextra/tucker/tucker/TagNode.java:271-289 | a name is in the set exactly when the tag has that style class |
| Hardening.HardTag | src/main/java/net/jextra/tucker/tucker/NodeWriter.java:397-408 | the new tag keeps the name and inline flag, takes the hardened attributes and has no segments or children yet |
| Hardening.Hardened | src/main/java/net/jextra/tucker/tucker/NodeWriter.java:290-365 | every node hardening returns is hard: no insertion node is left anywhere in it |
| Hardening.HardenedTag | src/main/java/net/jextra/tucker/tucker/NodeWriter.java:314-341 | every node the tag case returns is hard |
| Hardening.HookOf | src/main/java/net/jextra/tucker/tucker/ScopeContext.java:146-157 | throws exactly when the stack is empty, or the innermost scope has bindings and either the tag has no name or a binding needing an id the tag lacks comes before any accepting binding; otherwise the hook is the first accepting binding's (none for no bindings) |
| Hardening.HookOfWithoutIdThrows | src/main/java/net/jextra/tucker/tucker/HookBinding.java:103 | a `div#x` binding in the innermost scope makes hardening a plain `<div>` throw |
| Hardening.Hooked | src/main/java/net/jextra/tucker/tucker/NodeWriter.java:323-340 | the nodes that replace a hooked tag are hard |
| Hardening.Performed | src/main/java/net/jextra/tucker/tucker/NodeWriter.java:326-336 | the hardened replacement is hard |
| Hardening.Replacement | src/main/java/net/jextra/tucker/tucker/NodeWriter.java:655-663 | a hook that returns null leaves the tag itself; otherwise its node replaces the tag |
| Hardening.HardenedChildren | src/main/java/net/jextra/tucker/tucker/NodeWriter.java:368-381 | the children's hardened nodes are hard |
| Hardening.HardenedSegment | src/main/java/net/jextra/tucker/tucker/NodeWriter.java:450-472 | an inline segment that survives holds a hard node |
| Hardening.HardenedSegments | src/main/java/net/jextra/tucker/tucker/NodeWriter.java:408-415 | every inline segment kept holds a hard node |
| Hardening.HardenAttributesPlain | src/main/java/net/jextra/tucker/tucker/NodeWriter.java:404-407 | attributes with nothing to substitute and distinct keys harden to themselves, in order |
| Hardening.HardenPlain | src/main/java/net/jextra/tucker/tucker/NodeWriter.java:420-448 | an attribute with nothing to substitute hardens to itself |
| Hardening.AppendNew | src/main/java/net/jextra/tucker/tucker/TagNode.java:207-226 | adding an attribute under a new key appends it at the end |
| Hardening.Copy | src/main/java/net/jextra/tucker/tucker/NodeWriter.java:290-365 | a copy has the kind of the node it copies |
| Hardening.HardenedStatic | src/main/java/net/jextra/tucker/tucker/NodeWriter.java:290-365 | with no hook bound in the scope in force, a tree with nothing to substitute and no insertion hardens to exactly its own copy |
| Hardening.TagStatic | src/main/java/net/jextra/tucker/tucker/NodeWriter.java:314-341 | the same for the tag case |
| Hardening.ChildrenStatic | src/main/java/net/jextra/tucker/tucker/NodeWriter.java:368-381 | the same for a list of children |
| Hardening.SegmentsStatic | src/main/java/net/jextra/tucker/tucker/NodeWriter.java:408-415 | the same for segments |
| Hardening.SegmentStatic | src/main/java/net/jextra/tucker/tucker/NodeWriter.java:450-472 | the same for one segment |
| Hardening.ChildrenErr | src/main/java/net/jextra/tucker/tucker/NodeWriter.java:370-378 | hardening stops at the first child that throws |
| Hardening.SegmentsErr | src/main/java/net/jextra/tucker/tucker/NodeWriter.java:408-415 | hardening stops at the first segment that throws |
| Hardening.AttributesSnoc | src/main/java/net/jextra/tucker/tucker/NodeWriter.java:404-407 | one more attribute merges its hardened form into those so far |
| Hardening.ChildrenSnoc | src/main/java/net/jextra/tucker/tucker/NodeWriter.java:370-378 | one more child appends its hardened nodes to those so far |
| Hardening.SegmentsSnoc | src/main/java/net/jextra/tucker/tucker/NodeWriter.java:408-415 | one more segment appends its hardened form unless it is null |
| Writing.AttributeOut | src/main/java/net/jextra/tucker/tucker/NodeWriter.java:558-593 | what an attribute writes is empty or starts with a space |
| Writing.OthersMembers | src/main/java/net/jextra/tucker/tucker/NodeWriter.java:545-553 | the attributes written after `id` and `class` are exactly those stored under neither key |
| Writing.OrderedAttributes | src/main/java/net/jextra/tucker/tucker/NodeWriter.java:534-553 | `id` comes first when present, then `class`, then the others |
| Writing.AttributesOutConcat | src/main/java/net/jextra/tucker/tucker/NodeWriter.java:545-553 | writing two runs of attributes writes one after the other |
| Writing.AttributeOrder | src/main/java/net/jextra/tucker/tucker/NodeWriter.java:534-553 | the opening tag writes `id`, then `class`, then every other attribute in declaration order |
| Writing.OrderedPermutation | src/main/java/net/jextra/tucker/tucker/NodeWriter.java:534-553 | over distinct keys, each attribute is written exactly once |
| Writing.OrderedBag | src/main/java/net/jextra/tucker/tucker/NodeWriter.java:534-553 | the written attributes are the id, the class and the others |
| Writing.OthersAppend | src/main/java/net/jextra/tucker/tucker/NodeWriter.java:545-553 | one more attribute joins the others unless it is `id` or `class` |
| Writing.AttributePlain | src/main/java/net/jextra/tucker/tucker/NodeWriter.java:572-589 | an attribute with nothing to substitute is written as a space, the key, `="`, the value and `"` |
| Writing.OthersStep | src/main/java/net/jextra/tucker/tucker/NodeWriter.java:545-553 | one more attribute considered by the loop writes itself unless it is `id` or `class` |
| Writing.AttributesOutSnoc | src/main/java/net/jextra/tucker/tucker/NodeWriter.java:545-553 | one more attribute appends its text |
| Writing.WrittenChildrenSnoc | src/main/java/net/jextra/tucker/tucker/NodeWriter.java:612-627 | one more child appends its text |
| Writing.WrittenChildrenErr | src/main/java/net/jextra/tucker/tucker/NodeWriter.java:612-627 | writing stops at the first child that throws |
| Writing.WrittenSegmentsSnoc | src/main/java/net/jextra/tucker/tucker/NodeWriter.java:595-610 | one more segment appends its text |
| Writing.WrittenSegmentsErr | src/main/java/net/jextra/tucker/tucker/NodeWriter.java:595-610 | writing stops at the first segment that throws |
| NodeWriters.NodeWriter.constructor | src/main/java/net/jextra/tucker/tucker/NodeWriter.java:44-47 | a fresh writer has an empty scope stack, indent 0 and no translator |
| NodeWriters.NodeWriter.Copy | src/main/java/net/jextra/tucker/tucker/NodeWriter.java:49-53 | the copy has its own scope context with the other's stack and indent, the same page context and no translator |
| NodeWriters.NodeWriter.SetTranslator | src/main/java/net/jextra/tucker/tucker/NodeWriter.java:78-81 | the translator is the one given |
| NodeWriters.NodeWriter.Translate | src/main/java/net/jextra/tucker/tucker/NodeWriter.java:263-281 | the translation of the source, which is the source itself without a translator |
| NodeWriters.NodeWriter.CleanString | src/main/java/net/jextra/tucker/tucker/NodeWriter.java:141-227 | the loops compute `Cleaning.Clean` of the value under the current scopes and translator |
| NodeWriters.NodeWriter.ReplaceVariables | src/main/java/net/jextra/tucker/tucker/NodeWriter.java:160-178 | the variable loop computes `Cleaning.VarPass` |
| NodeWriters.NodeWriter.ReplaceBooleans | src/main/java/net/jextra/tucker/tucker/NodeWriter.java:183-199 | the boolean loop computes `Cleaning.BoolPass` |
| NodeWriters.NodeWriter.TranslatePhrases | src/main/java/net/jextra/tucker/tucker/NodeWriter.java:204-212 | the phrase loop computes `Cleaning.PhrasePass` |
| NodeWriters.NodeWriter.HardenAttribute | src/main/java/net/jextra/tucker/tucker/NodeWriter.java:420-448 | computes `Hardening.HardenAttribute` |
| NodeWriters.NodeWriter.Harden | src/main/java/net/jextra/tucker/tucker/NodeWriter.java:290-365 | computes `Hardening.Hardened`; a block's scope is popped again, so on return the stack and indent are as before |
| NodeWriters.NodeWriter.HardenTagNode | src/main/java/net/jextra/tucker/tucker/NodeWriter.java:314-341 | the tag case computes `Hardening.HardenedTag` and leaves the stack and indent as they were |
| NodeWriters.NodeWriter.ApplyHook | src/main/java/net/jextra/tucker/tucker/NodeWriter.java:322-340 | computes `Hardening.Hooked` and leaves the stack and indent as they were |
| NodeWriters.NodeWriter.PerformHook | src/main/java/net/jextra/tucker/tucker/NodeWriter.java:655-668 | computes `Hardening.Performed` and leaves the stack and indent as they were |
| NodeWriters.NodeWriter.FindHook | src/main/java/net/jextra/tucker/tucker/ScopeContext.java:146-157 | computes `Hardening.HookOf`: throwing where the source dereferences null, including the id test of `matches` as written |
| NodeWriters.NodeWriter.HardenChildren | src/main/java/net/jextra/tucker/tucker/NodeWriter.java:368-381 | computes `Hardening.HardenedChildren` and leaves the stack and indent as they were |
| NodeWriters.NodeWriter.HardenTag | src/main/java/net/jextra/tucker/tucker/NodeWriter.java:397-418 | the new tag with hardened attributes and hardened segments, or the error a segment throws |
| NodeWriters.NodeWriter.HardenAttributes | src/main/java/net/jextra/tucker/tucker/NodeWriter.java:404-407 | the attribute loop computes `Hardening.HardenAttributes` |
| NodeWriters.NodeWriter.HardenSegments | src/main/java/net/jextra/tucker/tucker/NodeWriter.java:409-416 | the segment loop computes `Hardening.HardenedSegments` |
| NodeWriters.NodeWriter.HardenSegment | src/main/java/net/jextra/tucker/tucker/NodeWriter.java:450-472 | computes `Hardening.HardenedSegment` |
| NodeWriters.NodeWriter.Render | src/main/java/net/jextra/tucker/tucker/NodeWriter.java:104-117 | the text of the hardened nodes, each written in turn, and the stack and indent as they were |
| NodeWriters.NodeWriter.WriteAll | src/main/java/net/jextra/tucker/tucker/NodeWriter.java:109-112 | the loop of `render` writes every hard node in turn |
| NodeWriters.NodeWriter.GetIndent | src/main/java/net/jextra/tucker/tucker/NodeWriter.java:93-96 | the indent of the scope context |
| NodeWriters.NodeWriter.SetIndent | src/main/java/net/jextra/tucker/tucker/NodeWriter.java:98-102 | sets the indent and leaves the scope stack alone |
| NodeWriters.NodeWriter.WriteIndent | src/main/java/net/jextra/tucker/tucker/NodeWriter.java:119-122 | the current indent's whitespace |
| NodeWriters.NodeWriter.WriteIndentBy | src/main/java/net/jextra/tucker/tucker/NodeWriter.java:124-130 | `d` copies of the indent whitespace |
| NodeWriters.NodeWriter.WriteString | src/main/java/net/jextra/tucker/tucker/NodeWriter.java:132-139 | the cleaned value, nothing when it cleans to null |
| NodeWriters.NodeWriter.WriteAttribute | src/main/java/net/jextra/tucker/tucker/NodeWriter.java:558-593 | computes `Writing.AttributeOut` |
| NodeWriters.NodeWriter.WriteTagStart | src/main/java/net/jextra/tucker/tucker/NodeWriter.java:523-556 | computes `Writing.TagStart`: indent unless inline, `<`, the name, `id`, `class`, the others, `>` |
| NodeWriters.NodeWriter.WriteOthers | src/main/java/net/jextra/tucker/tucker/NodeWriter.java:545-553 | the loop writes every attribute but `id` and `class`, in order |
| NodeWriters.NodeWriter.WriteTagEnd | src/main/java/net/jextra/tucker/tucker/NodeWriter.java:629-643 | computes `Writing.TagEnd` |
| NodeWriters.NodeWriter.WriteNode | src/main/java/net/jextra/tucker/tucker/NodeWriter.java:476-521 | computes `Writing.Written` and leaves the stack and indent as they were |
| NodeWriters.NodeWriter.WriteTag | src/main/java/net/jextra/tucker/tucker/NodeWriter.java:491-503 | the tag case computes `Writing.WrittenTag` |
| NodeWriters.NodeWriter.WriteTagRest | src/main/java/net/jextra/tucker/tucker/NodeWriter.java:495-502 | the children one level deeper after a line end when there are any, then the end tag |
| NodeWriters.NodeWriter.WriteChildren | src/main/java/net/jextra/tucker/tucker/NodeWriter.java:612-627 | computes `Writing.WrittenChildren`; the count is the number of children and the indent is restored |
| NodeWriters.NodeWriter.WriteChild | src/main/java/net/jextra/tucker/tucker/NodeWriter.java:615-623 | one child written at the child indent, the indent set back after |
| NodeWriters.NodeWriter.WriteSegments | src/main/java/net/jextra/tucker/tucker/NodeWriter.java:595-610 | computes `Writing.WrittenSegments` |
| NodeWriters.NodeWriter.WriteSegment | src/main/java/net/jextra/tucker/tucker/NodeWriter.java:597-608 | one segment: text through `writeString`, an inline node through `writeNode` |
| Specials.Escaped | src/main/java/net/jextra/tucker/tucker/TuckerParser.java:322-357 | `\\`, `$` and `&` stand for themselves, braces and backtick become their sentinels, any other character keeps its backslash |
| Specials.FeedText | src/main/java/net/jextra/tucker/tucker/TuckerParser.java:295-320 | in the text state each character is consumed in one step |
| Specials.FeedName | src/main/java/net/jextra/tucker/tucker/TuckerParser.java:390-436 | inside a bare name, a name character is added and a space or tab ends nothing further |
| Specials.DropBlanks | src/main/java/net/jextra/tucker/tucker/TuckerParser.java:403-410 | the name inside parentheses keeps every character but spaces and tabs |
| Specials.TransformSpecials | src/main/java/net/jextra/tucker/tucker/TuckerParser.java:283-461 | the loop, with its step back for a rescanned character, computes `Specials.Transformed` |
| Specials.PlainText | src/main/java/net/jextra/tucker/tucker/TuckerParser.java:316-318 | text with no backslash, sigil or backtick is copied as it is |
| Specials.PlainLine | src/main/java/net/jextra/tucker/tucker/TuckerParser.java:283-461 | a line with no backslash, sigil or backtick comes back unchanged with no problem |
| Specials.Escape | src/main/java/net/jextra/tucker/tucker/TuckerParser.java:322-357 | `\c` emits the escaped character or sentinel, and for an unknown `c` the backslash and `c` with a problem |
| Specials.Phrase | src/main/java/net/jextra/tucker/tucker/TuckerParser.java:311-314 | backticks alternate: the first opens a phrase, the next closes it |
| Specials.NameRun | src/main/java/net/jextra/tucker/tucker/TuckerParser.java:412-416 | a run of name characters is added to the bare name |
| Specials.ParenBlank | src/main/java/net/jextra/tucker/tucker/TuckerParser.java:403-410 | spaces and tabs inside `$( … )` are skipped |
| Specials.ParenKept | src/main/java/net/jextra/tucker/tucker/TuckerParser.java:412-416 | any other character but `)` inside `$( … )` is added to the name |
| Specials.ParenRun | src/main/java/net/jextra/tucker/tucker/TuckerParser.java:390-424 | inside `$( … )` every character but `)` is kept except blanks |
| Specials.SigilName | src/main/java/net/jextra/tucker/tucker/TuckerParser.java:359-388 | a sigil then a bare name starts a variable or boolean with that name |
| Specials.BareNameBlank | src/main/java/net/jextra/tucker/tucker/TuckerParser.java:403-433 | a bare name ended by a space or tab gives the placeholder, and the blank is swallowed |
| Specials.RescanAfterName | src/main/java/net/jextra/tucker/tucker/TuckerParser.java:417-423 | a character that ends a bare name closes it and is scanned again as text |
| Specials.BareNameRescan | src/main/java/net/jextra/tucker/tucker/TuckerParser.java:412-433 | a bare name ended by another character gives the placeholder, then that character is scanned |
| Specials.OpenParen | src/main/java/net/jextra/tucker/tucker/TuckerParser.java:369-372 | `$(` or `&(` opens a name inside parentheses |
| Specials.CloseParen | src/main/java/net/jextra/tucker/tucker/TuckerParser.java:395-401 | `)` closes a name inside parentheses and is consumed |
| Specials.ParenName | src/main/java/net/jextra/tucker/tucker/TuckerParser.java:359-436 | `$( … )` becomes the placeholder of the blank-free name inside |
| Specials.OpenAtEnd | src/main/java/net/jextra/tucker/tucker/TuckerParser.java:443-458 | a name still open at the end of the line is closed |
| Specials.DroppedSigil | src/main/java/net/jextra/tucker/tucker/TuckerParser.java:374-386 | a sigil before a character that cannot start a name is dropped and the character rescanned |
| Specials.ParenInLine | src/main/java/net/jextra/tucker/tucker/TuckerParser.java:283-461 | a line with one `$( … )` between plain text: the placeholder replaces it and nothing else changes |
| TagLexer.NameEnd | src/main/java/net/jextra/tucker/tucker/TuckerParser.java:567-599 | the name runs up to the first `#`, `.`, `\|`, space or tab, or the end of the line |
| TagLexer.AddAll | src/main/java/net/jextra/tucker/tucker/TagNode.java:207-226 | adding attributes keeps the node's kind, name, segments and children |
| TagLexer.AddSegments | src/main/java/net/jextra/tucker/tucker/TuckerParser.java:911-912 | adding segments keeps the node's kind, name, attributes and children |
| TagLexer.ShortcutScan | src/main/java/net/jextra/tucker/tucker/TuckerParser.java:620-698 | the scan stops after the ending space or returns -1 at the end of the line |
| TagLexer.LexTagShortcuts | src/main/java/net/jextra/tucker/tucker/TuckerParser.java:620-698 | the loop makes the calls `ShortcutScan` lists and returns its position, or throws on a second `#` |
| TagLexer.AttributeScan | src/main/java/net/jextra/tucker/tucker/TuckerParser.java:700-869 | the scan stops after the ending `\|` or returns -1 at the end of the line |
| TagLexer.AttributesFrom | src/main/java/net/jextra/tucker/tucker/TuckerParser.java:700-705 | `-1` in gives nothing and `-1` out |
| TagLexer.LexAttributes | src/main/java/net/jextra/tucker/tucker/TuckerParser.java:700-869 | the loop adds the attributes `AttributesFrom` lists and returns its position |
| TagLexer.AddOne | src/main/java/net/jextra/tucker/tucker/TagNode.java:207-226 | one call is one `addAttribute` |
| TagLexer.AddAllConcat | src/main/java/net/jextra/tucker/tucker/TuckerParser.java:700-869 | making the calls `a + b` is making `a`, then `b` |
| TagLexer.PipeFrom | src/main/java/net/jextra/tucker/tucker/TuckerParser.java:871-876 | `-1` in adds no segment |
| TagLexer.LexPipeData | src/main/java/net/jextra/tucker/tucker/TuckerParser.java:871-964 | the loop adds the segments `PipeFrom` lists |
| TagLexer.AfterName | src/main/java/net/jextra/tucker/tucker/TuckerParser.java:609-614 | the position the attribute scan starts from is -1 or more |
| TagLexer.TagOf | src/main/java/net/jextra/tucker/tucker/TuckerParser.java:561-618 | a tag node without children; a problem is recorded exactly when the trimmed name is empty, and then the name is the default tag |
| TagLexer.Completed | src/main/java/net/jextra/tucker/tucker/TuckerParser.java:609-615 | the scans after the name keep the node's kind, name and children |
| TagLexer.LexTag | src/main/java/net/jextra/tucker/tucker/TuckerParser.java:561-618 | the name loop and the three scans compute `TagLexer.TagOf` |
| TagLexer.LexAfterName | src/main/java/net/jextra/tucker/tucker/TuckerParser.java:609-615 | the three scans compute `TagLexer.Completed` |
| TagLexer.ScanTagName | src/main/java/net/jextra/tucker/tucker/TuckerParser.java:564-599 | the characters collected are the line up to the end of the name |
| TagLexer.NameEndIsFirst | src/main/java/net/jextra/tucker/tucker/TuckerParser.java:567-599 | the first name-ending character at or after the start is where the name ends |
| TagLexer.InlineNodes | src/main/java/net/jextra/tucker/tucker/TuckerParser.java:260-269 | every inline segment gets the tag its text lexes to, marked inline; text segments are kept; the count is unchanged |
| TagLexer.FillInline | src/main/java/net/jextra/tucker/tucker/TuckerParser.java:263-268 | a text segment is kept as it is; an inline one is filled |
| TagLexer.LexInlines | src/main/java/net/jextra/tucker/tucker/TuckerParser.java:260-269 | the loop computes `TagLexer.InlineNodes` |
| TagLexer.ErrorPersists | src/main/java/net/jextra/tucker/tucker/TuckerParser.java:260-269 | an error met in a prefix of the segments is the error of the whole loop |
| TagLexer.NamePrefix | src/main/java/net/jextra/tucker/tucker/TuckerParser.java:567-606 | a line that starts with a plain name is named by it |
| TagLexer.IdRun | src/main/java/net/jextra/tucker/tucker/TuckerParser.java:650-652 | inside an id, ordinary characters are added to it |
| TagLexer.ClassRun | src/main/java/net/jextra/tucker/tucker/TuckerParser.java:678-680 | inside a class name, ordinary characters are added to it |
| TagLexer.MergedClasses | src/main/java/net/jextra/tucker/tucker/TagNode.java:207-226 | two class values added one after the other merge into one, separated by a space |
| TagLexer.ClassPair | src/main/java/net/jextra/tucker/tucker/TuckerParser.java:656-694 | `.a.b` makes two class calls and uses up the line |
| TagLexer.ClassLast | src/main/java/net/jextra/tucker/tucker/TuckerParser.java:678-694 | a class that runs to the end of the line is added |
| TagLexer.ClassShortcuts | src/main/java/net/jextra/tucker/tucker/TuckerParser.java:561-698 | `t.a.b` is tag `t` with the single class attribute `a b` and no problem |
| TagLexer.DuplicateIdAborts | src/main/java/net/jextra/tucker/tucker/TuckerParser.java:631-635 | a second `#` while an id is being read aborts the tag |
| TagLexer.NameRun | src/main/java/net/jextra/tucker/tucker/TuckerParser.java:764-766 | an attribute name is read to its end |
| TagLexer.ValueRun | src/main/java/net/jextra/tucker/tucker/TuckerParser.java:843-845 | a quoted value is read to its closing quote |
| TagLexer.ReadName | src/main/java/net/jextra/tucker/tucker/TuckerParser.java:717-766 | an attribute name at the start is read whole |
| TagLexer.BareAttribute | src/main/java/net/jextra/tucker/tucker/TuckerParser.java:753-762 | a bare name gets a null value, and a `\|` after it ends the list |
| TagLexer.QuotedAttribute | src/main/java/net/jextra/tucker/tucker/TuckerParser.java:747-836 | `k="v"` adds `k` with value `v`, and the scan goes on after the quote |
| TagLexer.EscapedInValue | src/main/java/net/jextra/tucker/tucker/TuckerParser.java:839-855 | a backslash inside quotes makes the next character part of the value |
| TagLexer.DiscardedAttribute | src/main/java/net/jextra/tucker/tucker/TuckerParser.java:815-820 | `k=` before anything but a quote drops the attribute and that character |
| TagLexer.OneLetterJoinsNext | src/main/java/net/jextra/tucker/tucker/TuckerParser.java:770-799 | after a bare name and a blank, the next character restarts the scan already holding that character, so `x y z` gives `x` and `yz` |
| TagLexer.TextRun | src/main/java/net/jextra/tucker/tucker/TuckerParser.java:907-921 | after the pipe everything but `{` is text |
| TagLexer.InlineRun | src/main/java/net/jextra/tucker/tucker/TuckerParser.java:938-952 | inside braces everything but `}` belongs to the inline tag |
| TagLexer.ReadText | src/main/java/net/jextra/tucker/tucker/TuckerParser.java:888-921 | plain text after the pipe is read whole |
| TagLexer.PipeText | src/main/java/net/jextra/tucker/tucker/TuckerParser.java:871-964 | text without braces is one text segment |
| TagLexer.ReadInline | src/main/java/net/jextra/tucker/tucker/TuckerParser.java:923-952 | after `{`, the inline text is read whole |
| TagLexer.PipeInline | src/main/java/net/jextra/tucker/tucker/TuckerParser.java:907-946 | `s{i}` gives a text segment then an inline segment |
| TagLexer.UnclosedInline | src/main/java/net/jextra/tucker/tucker/TuckerParser.java:938-960 | an inline text without a closing brace is dropped |
| Placeholders.Find | src/main/java/net/jextra/tucker/tucker/NodeWriter.java:162-166 | a match cuts the string into the text before the first opener, the name up to the first closer after it and a rest without line terminators; no opener, no match |
| Placeholders.FindUnique | src/main/java/net/jextra/tucker/tucker/NodeWriter.java:162-166 | any cut of that shape is the one the match returns |
| Hierarchy.PopTo | src/main/java/net/jextra/tucker/tucker/TuckerParser.java:1056-1059 | the depth steps up while the indent is less than the one recorded there, never above 0 |
| Hierarchy.DepthStep | src/main/java/net/jextra/tucker/tucker/TuckerParser.java:1040-1063 | after a node, its indent is recorded at the depth it was placed at |
| Hierarchy.After | src/main/java/net/jextra/tucker/tucker/TuckerParser.java:1032-1064 | after the nodes, the last node's indent is recorded at the current depth |
| Hierarchy.Depths | src/main/java/net/jextra/tucker/tucker/TuckerParser.java:1035-1064 | one depth per node |
| Hierarchy.Indents | src/main/java/net/jextra/tucker/tucker/TuckerParser.java:1037 | the indent of every node, in order |
| Hierarchy.ParentAmong | src/main/java/net/jextra/tucker/tucker/TuckerParser.java:1073-1087 | the parent is the latest tag node one depth up before the node, and none exactly when there is no such tag |
| Hierarchy.Parents | src/main/java/net/jextra/tucker/tucker/TuckerParser.java:1071-1088 | every node's parent is the latest earlier tag one depth up |
| Hierarchy.Members | src/main/java/net/jextra/tucker/tucker/TuckerParser.java:1075-1082 | the nodes with a given parent, each once, in increasing order |
| Hierarchy.Arranged | src/main/java/net/jextra/tucker/tucker/TuckerParser.java:1026-1098 | rearranging keeps the block's kind, name and variables |
| Hierarchy.AssignDepths | src/main/java/net/jextra/tucker/tucker/TuckerParser.java:1032-1064 | the first loop computes `Hierarchy.Depths` |
| Hierarchy.PlaceDepth | src/main/java/net/jextra/tucker/tucker/TuckerParser.java:1037-1063 | one node of the first loop is one `DepthStep` |
| Hierarchy.AssignParents | src/main/java/net/jextra/tucker/tucker/TuckerParser.java:1069-1088 | the second loop gives every node its parent and collects the roots in order |
| Hierarchy.RootsSnoc | src/main/java/net/jextra/tucker/tucker/TuckerParser.java:1075-1078 | one more node adds itself to the roots when it has no parent |
| Hierarchy.ParentsSnoc | src/main/java/net/jextra/tucker/tucker/TuckerParser.java:1073-1087 | the map of the latest tag at each depth finds the parent |
| Hierarchy.BuildHierarchy | src/main/java/net/jextra/tucker/tucker/TuckerParser.java:1026-1098 | the two loops and the refill compute `Hierarchy.Arranged` |
| Hierarchy.DepthsSnoc | src/main/java/net/jextra/tucker/tucker/TuckerParser.java:1035-1064 | one more node appends its depth |
| Hierarchy.ParentIsLastTag | src/main/java/net/jextra/tucker/tucker/TuckerParser.java:1074 | looking up depth - 1 among the latest tags finds the parent |
| Hierarchy.FirstAtTop | src/main/java/net/jextra/tucker/tucker/TuckerParser.java:1039-1043 | the first node is at depth 0, however far it is indented |
| Hierarchy.NextDepth | src/main/java/net/jextra/tucker/tucker/TuckerParser.java:1044-1061 | the same indent keeps the depth, a deeper one goes exactly one level down, a shallower one goes up or stays at the top |
| Hierarchy.OneLevelAtATime | src/main/java/net/jextra/tucker/tucker/TuckerParser.java:1049-1052 | the depth never grows by more than one from a node to the next |
| Hierarchy.WorkedDepths | src/main/java/net/jextra/tucker/tucker/TuckerParser.java:1026-1064 | indents 0, 2, 2, 4, 2, 0 give depths 0, 1, 1, 2, 1, 0 |
| Hierarchy.PlacedOnce | src/main/java/net/jextra/tucker/tucker/TuckerParser.java:1071-1097 | every node is placed exactly once: under its parent, or among the roots |
| Parser.Decimal | src/main/java/net/jextra/tucker/tucker/TuckerParser.java:1173 | `%d` of a non-negative number: only digits, with a leading zero exactly for 0 |
| Parser.DecimalValue | src/main/java/net/jextra/tucker/tucker/TuckerParser.java:1173 | the digits printed denote the number |
| Parser.ProblemText | src/main/java/net/jextra/tucker/tucker/TuckerParser.java:1170-1174 | a problem prints as the row, `: ` and the message |
| Parser.WithRow | src/main/java/net/jextra/tucker/tucker/TuckerParser.java:605 | every recorded message is a problem at the given row |
| Parser.AddToActive | src/main/java/net/jextra/tucker/tucker/TuckerParser.java:222 | adding a child to the active block keeps the row, problems, order and active block |
| Parser.Indent | src/main/java/net/jextra/tucker/tucker/TuckerParser.java:178-182 | the indent is at most the line's length |
| Parser.IndentOf | src/main/java/net/jextra/tucker/tucker/TuckerParser.java:178-182 | the loop counts the spaces and tabs the line starts with |
| Parser.InsertionOf | src/main/java/net/jextra/tucker/tucker/TuckerParser.java:531-559 | no node exactly when the blank-free name is empty; otherwise an insertion node of that name |
| Parser.InsertionLine | src/main/java/net/jextra/tucker/tucker/TuckerParser.java:214-224 | an insertion line keeps the row and the problems |
| Parser.LineAt | src/main/java/net/jextra/tucker/tucker/TuckerParser.java:197-277 | a line keeps the row |
| Parser.LineStep | src/main/java/net/jextra/tucker/tucker/TuckerParser.java:177-190 | a line keeps the row |
| Parser.Lexed | src/main/java/net/jextra/tucker/tucker/TuckerParser.java:174-192 | the row goes up by one per line |
| Parser.LexedUnfold | src/main/java/net/jextra/tucker/tucker/TuckerParser.java:175-191 | lexing from a line on is that line's step, then the rest from the next row |
| Parser.LexedCons | src/main/java/net/jextra/tucker/tucker/TuckerParser.java:175-191 | the first line's exception ends the lexing; otherwise the rest follows from the next row |
| Parser.Arrange | src/main/java/net/jextra/tucker/tucker/TuckerParser.java:143-146 | every registered block is arranged by `buildHierarchy`; the registry, order and problems are kept |
| Parser.BlankLineSkipped | src/main/java/net/jextra/tucker/tucker/TuckerParser.java:184-188 | a line of spaces and tabs only changes nothing |
| Parser.LineStepAt | src/main/java/net/jextra/tucker/tucker/TuckerParser.java:178-190 | other lines are handled at their first character that is not a space or tab |
| Parser.CommentSkipped | src/main/java/net/jextra/tucker/tucker/TuckerParser.java:203-206 | a line starting with `/` or `#` changes nothing |
| Parser.OutsideBlock | src/main/java/net/jextra/tucker/tucker/TuckerParser.java:225-228 | outside any block, an insertion or tag line records one problem at its row and changes nothing else |
| Parser.BlockLineStep | src/main/java/net/jextra/tucker/tucker/TuckerParser.java:209-211 | a block line registers and activates its block; an empty name changes nothing |
| Parser.EmptyBlockName | src/main/java/net/jextra/tucker/tucker/TuckerParser.java:497-516 | only `=`, spaces and tabs make an empty block name |
| Parser.ActivateRegisters | src/main/java/net/jextra/tucker/tucker/TuckerParser.java:518-522 | the new empty block is active; a known name keeps its place, a new one goes last; other blocks, row and problems are kept, and the registry stays well formed |
| Parser.InsertionLineStep | src/main/java/net/jextra/tucker/tucker/TuckerParser.java:214-224 | an insertion line inside a block appends its node with indent and row; an empty name changes nothing |
| Parser.AppendsToActive | src/main/java/net/jextra/tucker/tucker/TuckerParser.java:222 | appending adds the node last among the active block's children and changes nothing else |
| Parser.TagLineStep | src/main/java/net/jextra/tucker/tucker/TuckerParser.java:250-270 | a tag line inside a block is lexed as a tag line |
| Parser.TagLineAppends | src/main/java/net/jextra/tucker/tucker/TuckerParser.java:252-269 | a tag line appends exactly one tag node, with the line's indent and row and the name `lexTag` gives, and adds problems at its row only |
| Parser.StaysRegistered | src/main/java/net/jextra/tucker/tucker/TuckerParser.java:197-277 | every line keeps the registry well formed and the active block registered |
| Parser.LineProblems | src/main/java/net/jextra/tucker/tucker/TuckerParser.java:197-277 | a line keeps the earlier problems and adds problems at its own row only |
| Parser.ProblemRows | src/main/java/net/jextra/tucker/tucker/TuckerParser.java:174-192 | lexing keeps the earlier problems and adds problems only at the rows of its lines, in row order |
| Parser.ParseProblemRows | src/main/java/net/jextra/tucker/tucker/TuckerParser.java:134-149 | every problem of a parse is at the row of one of its lines, counting from 1, in row order |
| Parser.AllArranged | src/main/java/net/jextra/tucker/tucker/TuckerParser.java:143-146 | the loop over the blocks arranges every one of them |
| Parser.TuckerParser.constructor | src/main/java/net/jextra/tucker/tucker/TuckerParser.java:85-88 | a fresh parser has no blocks, no active block and no problems |
| Parser.TuckerParser.GetBlocks | src/main/java/net/jextra/tucker/tucker/TuckerParser.java:151-154 | the registered blocks, in the order their names were first registered |
| Parser.TuckerParser.GetBlock | src/main/java/net/jextra/tucker/tucker/TuckerParser.java:156-159 | the block registered under the name, none exactly when there is none |
| Parser.TuckerParser.Parse | src/main/java/net/jextra/tucker/tucker/TuckerParser.java:134-149 | the problems and the state `Parser.Parsed` gives, or the message of the exception that ended the parse |
| Parser.TuckerParser.ArrangeBlocks | src/main/java/net/jextra/tucker/tucker/TuckerParser.java:143-146 | the loop computes `Parser.Arrange` |
| Parser.TuckerParser.LexLines | src/main/java/net/jextra/tucker/tucker/TuckerParser.java:168-192 | the loop computes `Parser.Lexed` from row 1 and keeps the registry well formed |
| Parser.TuckerParser.LexLineAtIndent | src/main/java/net/jextra/tucker/tucker/TuckerParser.java:177-190 | one line at its indent, skipped when blank |
| Parser.TuckerParser.LexLine | src/main/java/net/jextra/tucker/tucker/TuckerParser.java:197-277 | computes `Parser.LineAt` |
| Parser.TuckerParser.AddToActiveBlock | src/main/java/net/jextra/tucker/tucker/TuckerParser.java:222 | computes `Parser.AddToActive` |
| Parser.TuckerParser.RecordProblems | src/main/java/net/jextra/tucker/tucker/TuckerParser.java:605 | the messages are added as problems at the current row |
| Parser.TuckerParser.LexTagLine | src/main/java/net/jextra/tucker/tucker/TuckerParser.java:250-270 | computes `Parser.TagLine` |
| Parser.TuckerParser.LexBlock | src/main/java/net/jextra/tucker/tucker/TuckerParser.java:489-523 | an empty name changes nothing; otherwise the block is registered and active |
| Parser.TuckerParser.Register | src/main/java/net/jextra/tucker/tucker/TuckerParser.java:518-522 | computes `Parser.Activate` |
| Parser.TuckerParser.LexInsertionPoint | src/main/java/net/jextra/tucker/tucker/TuckerParser.java:531-559 | computes `Parser.InsertionOf` |
| Parser.NameOnLine | src/main/java/net/jextra/tucker/tucker/TuckerParser.java:492-512 | the kept characters from the start position on, trimmed |
| NipperLines.NewLine | src/main/java/net/jextra/tucker/nipper/NLine.java:62-69 | a new line keeps its row, spaces, content and comment, and has no type, parent, children, name or value |
| NipperLines.AddChild | src/main/java/net/jextra/tucker/nipper/NLine.java:84-88 | the child goes last among the parent's children and points back to it; no other line changes |
| NipperLines.AddChildLinked | src/main/java/net/jextra/tucker/nipper/NLine.java:84-88 | adding a later line as child keeps every parent and child link consistent |
| NipperLines.AddChildAscending | src/main/java/net/jextra/tucker/nipper/NLine.java:84-88 | adding a child after all the others keeps every child list in line order |
| NipperLines.ChildrenOfType | src/main/java/net/jextra/tucker/nipper/NLine.java:100-112 | exactly the children of that type, no more of them than there are children |
| NipperLines.ChildrenOfTypeOrdered | src/main/java/net/jextra/tucker/nipper/NLine.java:100-112 | the children of one type keep the order they have among all the children |
| NipperLines.ChildrenAfter | src/main/java/net/jextra/tucker/nipper/NLine.java:100-112 | the children of a line come after it |
| NipperLines.ChildrenOfTypeSnoc | src/main/java/net/jextra/tucker/nipper/NLine.java:102-109 | one more child is kept exactly when it has the type |
| NipperLines.GetChildren | src/main/java/net/jextra/tucker/nipper/NLine.java:100-112 | the loop computes `NipperLines.ChildrenOfType`, all after the line |
| NipperBlocks.Keys | src/main/java/net/jextra/tucker/nipper/NBlock.java:103 | the variable names in insertion order |
| NipperBlocks.Lookup | src/main/java/net/jextra/tucker/nipper/NBlock.java:108 | a lookup finds a value exactly when the name is present, and the value is stored under it |
| NipperBlocks.Put | src/main/java/net/jextra/tucker/nipper/NBlock.java:74-77 | a present name keeps its place and takes the new value; a new name goes last |
| NipperBlocks.PutThenLookup | src/main/java/net/jextra/tucker/nipper/NBlock.java:74-77 | after `put` the name reads back the value, every other name reads as before, and names stay unique |
| NipperBlocks.LookupRewritten | src/main/java/net/jextra/tucker/nipper/NBlock.java:74-77 | rewriting one name's entries leaves every other name's value alone |
| NipperBlocks.FragmentsOf | src/main/java/net/jextra/tucker/nipper/NBlock.java:151-189 | fragmenting always gives at least one fragment |
| NipperBlocks.FragmentsCover | src/main/java/net/jextra/tucker/nipper/NBlock.java:151-189 | the fragments cover the text exactly, in order |
| NipperBlocks.FragmentsBounded | src/main/java/net/jextra/tucker/nipper/NBlock.java:162-186 | a name is substituted only where it ends the text or a space follows it |
| NipperBlocks.FragmentsSpaced | src/main/java/net/jextra/tucker/nipper/NBlock.java:174-182 | a name followed by a space splits off the text before it and the substituted name, and the rest is fragmented the same way |
| NipperBlocks.FragmentsAbsent | src/main/java/net/jextra/tucker/nipper/NBlock.java:155-160 | a text without the name is one literal fragment |
| NipperBlocks.Piece | src/main/java/net/jextra/tucker/nipper/NBlock.java:113-120 | one fragment's pieces cover its text |
| NipperBlocks.Spellings | src/main/java/net/jextra/tucker/nipper/NBlock.java:105-107 | the two spellings of a variable: `$name` and `$(name)` |
| NipperBlocks.PassCovers | src/main/java/net/jextra/tucker/nipper/NBlock.java:109-122 | a pass never changes the text the fragments cover |
| NipperBlocks.PassesCover | src/main/java/net/jextra/tucker/nipper/NBlock.java:103-124 | substituting every variable keeps the text the fragments cover |
| NipperBlocks.PassKeepsSubstituted | src/main/java/net/jextra/tucker/nipper/NBlock.java:112-116 | a substituted fragment survives a pass unchanged: a value is never substituted again |
| NipperBlocks.PassesKeepSubstituted | src/main/java/net/jextra/tucker/nipper/NBlock.java:103-124 | a substituted fragment survives every later variable |
| NipperBlocks.NoDollarUnchanged | src/main/java/net/jextra/tucker/nipper/NBlock.java:98-133 | a text without `$` comes out unchanged |
| NipperBlocks.Roots | src/main/java/net/jextra/tucker/nipper/NBlock.java:84-96 | exactly the lines without a parent, in line order |
| NipperBlocks.Shifted | src/main/java/net/jextra/tucker/nipper/NBlock.java:56-59 | the other block's lines, their links moved past the lines already there |
| NipperBlocks.Moved | src/main/java/net/jextra/tucker/nipper/NBlock.java:56-59 | a moved line's parent and children move by the offset; nothing else changes |
| NipperBlocks.AppendLinked | src/main/java/net/jextra/tucker/nipper/NBlock.java:54-67 | appending another block's linked lines keeps the whole linked |
| NipperBlocks.NBlock.constructor | src/main/java/net/jextra/tucker/nipper/NBlock.java:40-44 | a new block has no lines and no variables |
| NipperBlocks.NBlock.AddBlock | src/main/java/net/jextra/tucker/nipper/NBlock.java:54-67 | the other block's lines follow these and its variables are put in its order; the block itself is returned; two valid blocks give a valid block (linked lines, each variable once); a block added to itself throws `ConcurrentModificationException` after appending its first line when it has lines, and, when it is valid and has none, is left as it was |
| NipperBlocks.PutAllPresent | src/main/java/net/jextra/tucker/nipper/NBlock.java:61-64 | putting entries the variables already hold (a map put into itself) changes nothing |
| NipperBlocks.PutAllUnique | src/main/java/net/jextra/tucker/nipper/NBlock.java:61-64 | putting another block's variables one by one keeps every name declared once |
| NipperBlocks.NBlock.AddLine | src/main/java/net/jextra/tucker/nipper/NBlock.java:69-72 | the line goes last; variables are kept |
| NipperBlocks.NBlock.SetVariableValue | src/main/java/net/jextra/tucker/nipper/NBlock.java:74-77 | computes `NipperBlocks.Put`; lines are kept; a valid block stays valid |
| NipperBlocks.NBlock.GetRoots | src/main/java/net/jextra/tucker/nipper/NBlock.java:84-96 | the loop computes `NipperBlocks.Roots` |
| NipperBlocks.NBlock.SubstituteVariables | src/main/java/net/jextra/tucker/nipper/NBlock.java:98-133 | the loops compute `NipperBlocks.Substitution` |
| NipperBlocks.PassSpellings | src/main/java/net/jextra/tucker/nipper/NBlock.java:105-123 | the two spellings of one variable pass in turn |
| NipperBlocks.JoinFragments | src/main/java/net/jextra/tucker/nipper/NBlock.java:126-130 | each fragment appended as it prints |
| NipperBlocks.PassOnce | src/main/java/net/jextra/tucker/nipper/NBlock.java:109-122 | the inner loop computes one `NipperBlocks.Pass` |
| NipperReader.ScanLine | src/main/java/net/jextra/tucker/nipper/NReader.java:65-98 | nothing exactly for a line of spaces and tabs; otherwise a new line with its row and the count of leading blanks as spaces |
| NipperReader.Scanned | src/main/java/net/jextra/tucker/nipper/NReader.java:61-99 | one scanned line per line of text that is not blank, each with the row it was read at, parentless and childless |
| NipperReader.ScannedInOrder | src/main/java/net/jextra/tucker/nipper/NReader.java:63-99 | the scanned lines keep the order of the text |
| NipperReader.ScannedComplete | src/main/java/net/jextra/tucker/nipper/NReader.java:63-99 | every line of text that is not blank is among the scanned lines |
| NipperReader.ContentUncommented | src/main/java/net/jextra/tucker/nipper/NReader.java:89-95 | content never holds `//`: the comment is always split off |
| NipperReader.WholeLineComment | src/main/java/net/jextra/tucker/nipper/NReader.java:80-86 | a whole-line comment keeps all its text, `//` included, and has no content |
| NipperReader.Scan | src/main/java/net/jextra/tucker/nipper/NReader.java:61-99 | the first loop computes `NipperReader.Scanned` |
| NipperReader.ScanOne | src/main/java/net/jextra/tucker/nipper/NReader.java:65-98 | one line of text computes `NipperReader.ScanLine` |
| NipperReader.Popped | src/main/java/net/jextra/tucker/nipper/NReader.java:114-118 | pops lines with more spaces than the new line, one indent each; what is left is a prefix of the stack whose top has at most as many spaces |
| NipperReader.Leveling | src/main/java/net/jextra/tucker/nipper/NReader.java:104-127 | every line keeps all but its indent |
| NipperReader.LevelStepBounds | src/main/java/net/jextra/tucker/nipper/NReader.java:108-126 | a line is never more than one level deeper than the one before, and the stack's spaces keep increasing |
| NipperReader.LevelingState | src/main/java/net/jextra/tucker/nipper/NReader.java:104-127 | the last line carries the final indent, and the stack increases |
| NipperReader.LevelingSteps | src/main/java/net/jextra/tucker/nipper/NReader.java:104-127 | the first line is at indent 0, and each line is at most one level deeper than the one before |
| NipperReader.LevelingFromFirst | src/main/java/net/jextra/tucker/nipper/NReader.java:104-127 | when no line has fewer spaces than the first, the indent is the height of the stack above it and never negative |
| NipperReader.LevelingNested | src/main/java/net/jextra/tucker/nipper/NReader.java:104-127 | spaces 2, 2, 2, 4, 2, 0 give indents 0, 1, 1, 2, 1, 0 |
| NipperReader.LevelingBelowFirst | src/main/java/net/jextra/tucker/nipper/NReader.java:112-118 | a line with fewer spaces than the first goes below indent 0: spaces 2, 0, 2 give 0, -1, -1 |
| NipperReader.LevelingUnpushed | src/main/java/net/jextra/tucker/nipper/NReader.java:112-118 | a line that pops back is not pushed, so spaces 0, 4, 2, 2 give indents 0, 1, 0, 1 |
| NipperReader.LevelLine | src/main/java/net/jextra/tucker/nipper/NReader.java:108-126 | the inner loop computes `NipperReader.LevelStep` |
| NipperReader.Level | src/main/java/net/jextra/tucker/nipper/NReader.java:104-127 | the second loop computes `NipperReader.Leveling` |
| NipperReader.Flatten | src/main/java/net/jextra/tucker/nipper/NReader.java:150-153 | past continuations to a line that is not one; it always exists when every continuation has a parent |
| NipperReader.FlattenParent | src/main/java/net/jextra/tucker/nipper/NReader.java:150-153 | the loop computes `NipperReader.Flatten` |
| NipperReader.Attached | src/main/java/net/jextra/tucker/nipper/NReader.java:146-161 | the line goes under an earlier line that is not a continuation; a property parent stays a property only when its content ends in `:`; no other line changes but the parent, and the lines stay linked |
| NipperReader.PropertyNamed | src/main/java/net/jextra/tucker/nipper/NReader.java:216-233 | only the name and value change, and the line gets a name |
| NipperReader.VarNamed | src/main/java/net/jextra/tucker/nipper/NReader.java:200-214 | only the name and value change, and the line gets a name |
| NipperReader.Placed | src/main/java/net/jextra/tucker/nipper/NReader.java:144-180 | every line is kept in place |
| NipperReader.TypeStep | src/main/java/net/jextra/tucker/nipper/NReader.java:135-182 | every line is kept in place |
| NipperReader.PlacedTyped | src/main/java/net/jextra/tucker/nipper/NReader.java:144-180 | placing types its line and keeps the rest |
| NipperReader.StepTyped | src/main/java/net/jextra/tucker/nipper/NReader.java:135-182 | each step types its line, keeps variables unique and records the line as the last seen at its indent |
| NipperReader.TypedFrom | src/main/java/net/jextra/tucker/nipper/NReader.java:133-183 | the loop types every line |
| NipperReader.TypedFromKeeps | src/main/java/net/jextra/tucker/nipper/NReader.java:133-183 | typing keeps the text of every line |
| NipperReader.Read | src/main/java/net/jextra/tucker/nipper/NReader.java:53-194 | every line of the result is typed |
| NipperReader.ReadLinked | src/main/java/net/jextra/tucker/nipper/NReader.java:53-194 | the block is linked and declares each variable once |
| NipperReader.PlacedKind | src/main/java/net/jextra/tucker/nipper/NReader.java:146-179 | a line at the top or under a wrapper is a wrapper or selector, under a property a continuation, otherwise a property |
| NipperReader.RootedStep | src/main/java/net/jextra/tucker/nipper/NReader.java:163-172 | each step keeps the top-level rule |
| NipperReader.ShapedStep | src/main/java/net/jextra/tucker/nipper/NReader.java:174-179 | each step keeps the property rule |
| NipperReader.DeclaresStep | src/main/java/net/jextra/tucker/nipper/NReader.java:139-143 | each step keeps every declared variable in the block |
| NipperReader.TypedFromRules | src/main/java/net/jextra/tucker/nipper/NReader.java:133-183 | the rules hold for every line once the loop is done |
| NipperReader.TypedFromWorded | src/main/java/net/jextra/tucker/nipper/NReader.java:135-138 | once the loop is done, every line but the comments has content |
| NipperReader.LastAt | src/main/java/net/jextra/tucker/nipper/NReader.java:182 | the last earlier line at an indent, which is what `parents` holds for it |
| NipperReader.HungStep | src/main/java/net/jextra/tucker/nipper/NReader.java:146-161 | each step hangs its line under the last earlier line one indent up, past continuations |
| NipperReader.TypedFromHung | src/main/java/net/jextra/tucker/nipper/NReader.java:133-183 | every line of the style tree hangs where it should once the loop is done |
| NipperReader.ReadRules | src/main/java/net/jextra/tucker/nipper/NReader.java:53-194 | the lines scanned and leveled, in order with their text, each typed; the top-level, property, declaration, hanging and content rules all hold |
| NipperReader.FirstColon | src/main/java/net/jextra/tucker/nipper/NReader.java:218 | the first colon of `name:value` is the one after `name` when `name` has none |
| NipperReader.PropertySplit | src/main/java/net/jextra/tucker/nipper/NReader.java:219-229 | a property splits at its first colon: later colons stay in the value, and one closing `;` goes |
| NipperReader.PropertyUnsplit | src/main/java/net/jextra/tucker/nipper/NReader.java:230-233 | without a colon the whole content, trimmed, is the name, and the value is left as it was |
| NipperReader.VarSplit | src/main/java/net/jextra/tucker/nipper/NReader.java:203-208 | a declaration splits at its first colon, after the `$` |
| NipperReader.VarUnsplit | src/main/java/net/jextra/tucker/nipper/NReader.java:209-213 | without a colon the declared value is empty |
| NipperReader.PlaceLine | src/main/java/net/jextra/tucker/nipper/NReader.java:144-180 | computes `NipperReader.Placed` |
| NipperReader.NReader.constructor | src/main/java/net/jextra/tucker/nipper/NReader.java:40-43 | a new reader has no block yet |
| NipperReader.NReader.Parse | src/main/java/net/jextra/tucker/nipper/NReader.java:53-194 | a fresh, valid block holding exactly the lines and variables `NipperReader.Read` gives |
| NipperReader.NReader.TypeAll | src/main/java/net/jextra/tucker/nipper/NReader.java:132-183 | the third loop types the lines as `NipperReader.Read` does and puts the variables in the block |
| NipperReader.NReader.CopyLines | src/main/java/net/jextra/tucker/nipper/NReader.java:185-189 | every line added to the block, in order |
| NipperReader.NReader.TypeLine | src/main/java/net/jextra/tucker/nipper/NReader.java:135-182 | one turn of the third loop computes `NipperReader.TypeStep` |
| NipperReader.NReader.ParseVar | src/main/java/net/jextra/tucker/nipper/NReader.java:200-214 | names the line and puts its variable in the block |
| NipperPrinter.TrimAll | src/main/java/net/jextra/tucker/nipper/NPrinter.java:246-249 | every piece trimmed, one for one |
| NipperPrinter.SplitHasNoComma | src/main/java/net/jextra/tucker/nipper/NPrinter.java:246 | no piece of `split(",")` holds a comma |
| NipperPrinter.SplitSelectorPieces | src/main/java/net/jextra/tucker/nipper/NPrinter.java:243-252 | no piece of a split selector holds a comma or starts or ends with white space |
| NipperPrinter.SplitSelectorSingle | src/main/java/net/jextra/tucker/nipper/NPrinter.java:243-252 | a selector without commas is one piece: itself, trimmed |
| NipperPrinter.PiecesOfJoined | src/main/java/net/jextra/tucker/nipper/NPrinter.java:246 | splitting comma-joined pieces gives the pieces back |
| NipperPrinter.SplitSelectorJoin | src/main/java/net/jextra/tucker/nipper/NPrinter.java:243-252 | non-empty trimmed selectors joined by commas split back into exactly those selectors |
| NipperPrinter.RowEntries | src/main/java/net/jextra/tucker/nipper/NPrinter.java:223-234 | one entry per piece, the prefix combined with it |
| NipperPrinter.ProductLength | src/main/java/net/jextra/tucker/nipper/NPrinter.java:221-235 | one expansion per prefix and piece |
| NipperPrinter.ProductCovers | src/main/java/net/jextra/tucker/nipper/NPrinter.java:221-235 | every prefix is combined with every piece |
| NipperPrinter.ProductOnly | src/main/java/net/jextra/tucker/nipper/NPrinter.java:221-235 | nothing but combinations of a prefix and a piece is produced |
| NipperPrinter.RowOfEmpty | src/main/java/net/jextra/tucker/nipper/NPrinter.java:226-232 | with the empty prefix no space is added: the pieces themselves |
| NipperPrinter.ExpandTop | src/main/java/net/jextra/tucker/nipper/NPrinter.java:196-237 | a selector at the top or under a wrapper expands to its own pieces |
| NipperPrinter.ExpandNested | src/main/java/net/jextra/tucker/nipper/NPrinter.java:206-237 | a nested selector expands to every parent expansion combined with every own piece and nothing else; a space joins them except before a `:` selector |
| NipperPrinter.ChildrenOfLine | src/main/java/net/jextra/tucker/nipper/NPrinter.java:92 | the children of a type come after their line |
| NipperPrinter.Audible | src/main/java/net/jextra/tucker/nipper/NPrinter.java:152-154 | exactly the lines of the list that print something |
| NipperPrinter.SilentLinesPrintNothing | src/main/java/net/jextra/tucker/nipper/NPrinter.java:152-154 | printing a list prints the same as printing it without its comment lines |
| NipperPrinter.LinesTextConcat | src/main/java/net/jextra/tucker/nipper/NPrinter.java:72-156 | printing two lists one after the other prints their concatenation |
| NipperPrinter.ReadPrintable | src/main/java/net/jextra/tucker/nipper/NReader.java:53-194 | every block the reader produces can be printed: what `print` requires of its lines always holds |
| NipperPrinter.NPrinter.constructor | src/main/java/net/jextra/tucker/nipper/NPrinter.java:41-45 | nothing written yet, the parameters given, no block |
| NipperPrinter.NPrinter.WithDefaults | src/main/java/net/jextra/tucker/nipper/NPrinter.java:47-50 | the default parameters |
| NipperPrinter.NPrinter.Print | src/main/java/net/jextra/tucker/nipper/NPrinter.java:60-64 | appends the text of the block's roots at indent 0 |
| NipperPrinter.NPrinter.PrintLines | src/main/java/net/jextra/tucker/nipper/NPrinter.java:70-157 | appends the text `NipperPrinter.LinesText` gives for the list |
| NipperPrinter.NPrinter.PrintLine | src/main/java/net/jextra/tucker/nipper/NPrinter.java:74-155 | appends one line's text, by its type |
| NipperPrinter.NPrinter.PrintWrapper | src/main/java/net/jextra/tucker/nipper/NPrinter.java:76-89 | appends the wrapper's content and braces around its children, with a blank line after one at the top |
| NipperPrinter.NPrinter.PrintEnd | src/main/java/net/jextra/tucker/nipper/NPrinter.java:82-88 | the closing at the block's indent, and a blank line after one at the top |
| NipperPrinter.NPrinter.PrintBody | src/main/java/net/jextra/tucker/nipper/NPrinter.java:79-81 | the opening of a block and the lines inside it |
| NipperPrinter.NPrinter.PrintSelector | src/main/java/net/jextra/tucker/nipper/NPrinter.java:91-117 | the blocks of its properties, then its nested selectors at the same indent |
| NipperPrinter.NPrinter.PrintPropertyBlocks | src/main/java/net/jextra/tucker/nipper/NPrinter.java:92-111 | the properties once under each expansion of the selector; nothing without properties |
| NipperPrinter.NPrinter.PrintChildren | src/main/java/net/jextra/tucker/nipper/NPrinter.java:112-116 | the children of the type printed at the indent; nothing without any |
| NipperPrinter.NPrinter.PrintBlocks | src/main/java/net/jextra/tucker/nipper/NPrinter.java:95-109 | one block of the properties under each expansion, in order |
| NipperPrinter.NPrinter.PrintBlock | src/main/java/net/jextra/tucker/nipper/NPrinter.java:97-108 | the block of the properties under one full selector |
| NipperPrinter.NPrinter.PrintProperty | src/main/java/net/jextra/tucker/nipper/NPrinter.java:119-143 | name, `: `, substituted value, its continuations, then `;` and a line end |
| NipperPrinter.NPrinter.PrintContinuations | src/main/java/net/jextra/tucker/nipper/NPrinter.java:124-139 | after a line end, each continuation on its own line one level in, as written |
| NipperPrinter.NPrinter.PrintContinuationLine | src/main/java/net/jextra/tucker/nipper/NPrinter.java:131-137 | a line end before every continuation but the first |
| NipperPrinter.NPrinter.PrintContinuation | src/main/java/net/jextra/tucker/nipper/NPrinter.java:145-150 | the substituted content, a line end, then its continuations at the same indent |
| NipperPrinter.NPrinter.PrintIndent | src/main/java/net/jextra/tucker/nipper/NPrinter.java:159-171 | `indent` copies of the indent string, nothing when it is null |
| NipperPrinter.NPrinter.PrintCr | src/main/java/net/jextra/tucker/nipper/NPrinter.java:173-179 | a line end only when returns are used |
| NipperPrinter.NPrinter.PrintValue | src/main/java/net/jextra/tucker/nipper/NPrinter.java:186-194 | the value with variables substituted, nothing when it is null |
| NipperPrinter.NPrinter.ExpandSelectorOf | src/main/java/net/jextra/tucker/nipper/NPrinter.java:196-237 | computes `NipperPrinter.ExpandSelector` |
| NipperPrinter.ProductOf | src/main/java/net/jextra/tucker/nipper/NPrinter.java:221-235 | the loops combine every prefix, in order, with every piece |
| NipperPrinter.AppendRow | src/main/java/net/jextra/tucker/nipper/NPrinter.java:223-234 | the inner loop appends one prefix combined with every piece |
| NipperPrinter.SplitSelectorOf | src/main/java/net/jextra/tucker/nipper/NPrinter.java:243-252 | computes `NipperPrinter.SplitSelector` |

## Left out

- The stream, file, path and URL plumbing is left out: the `parse(InputStream)`, `parse(File)` and `parse(URL)` overloads, `Tucker.java`, `Nipper.java`, and the closing of readers. The model starts from the sequence of lines these produce.
- `PrintWriter` is modelled as a string that output is appended to. Flushing and I/O errors are not modelled.
- NipperPrinter.NPrinter.PrintCr: `println()` writes the platform's `line.separator`; the model always writes `\n`.
- The debug printers `printTokens`, `printBlock`, `printChildren` and `printNode` are not modelled: they only print to standard output.
- `Hook`, `Translator` and `PageContext` are code outside this model. A hook is an identifier, and its behaviour is a function given as a parameter. A translator is an optional map from phrase to text, and a missing key falls back as the code does when the lookup fails. How exceptions thrown inside a hook are wrapped is not modelled.
- `HookContext`, `HookTag`, `OutputContext` and `PageContextStub` are not part of this model beyond what a hook receives and returns.
- Hardening.Hardened: hooks whose replacement is hardened again are followed for at most `fuel` rounds, after which hardening reports an error. The code recurses without a bound, and nothing in it shows that the recursion ends.
- The reflective binding `Scope.bind(String, Class)` is not modelled, because it instantiates hooks by reflection.
- Each regular expression the code uses is modelled as the split at its first match, which is how the code's patterns behave. `Pattern` in general is not modelled.
- Specials.IsVarChar: `Character.isAlphabetic` is modelled by the ASCII letters, so the model does not accept non-ASCII letters in variable names.
- The `Html4*` entity tables are represented only by the characters the encoder escapes. `decodeForHtml` and the `test` helpers are not modelled.
- Code that the source comments out is not modelled: line continuation, and `autoInsert` in `TuckerParser`.
- Nodes, scopes and hook bindings are values. Aliasing is therefore not captured: an inline `TagNode` shared between a segment and a parent, or the `NLine` objects that `NBlock.addBlock` shares between two blocks, which the model copies with shifted indices.
- Iteration over a `HashMap` is modelled in insertion order, or through an explicit sequence of keys. The code's order for a `HashMap` is unspecified.
- ScopeContexts.ScopeContext.FindHook: requires a non-empty stack. `stack.peek()` on an empty stack throws; `Hardening.HookOf` and `NodeWriters.NodeWriter.FindHook` model that error path.
- TreeSearch.FindFirstElementByClass: the method uses the corrected class test, so it answers where the source throws on a bare `class` attribute; `TreeSearch.FindFirstElementByClassAsWritten` beside it models the throw.
- Node API versions: `NLine.Type` (src/main/java/net/jextra/tucker/nipper/NLine.java:32-41) has no `wrapper` constant, yet `NReader` and `NPrinter` use one; `TuckerParser` and `NodeWriter` call an older `Node` API (`new Node(NodeType.tag)`, `getTagName`, `getStyleClasses`) than the node classes define. The model follows the callers in both places: `Wrapper` is a line type, and the nodes form one closed `Node` type with a kind, an optional tag name and the accessors the callers use.
- NipperPrinter.NPrinter.Print: requires the block to be printable (every line has a kind, and every selector has content). `NipperPrinter.ReadPrintable` proves that every block the reader produces meets this.
- Cleaning.Clean, NodeWriters.NodeWriter.CleanString, Cleaning.VarPass and Cleaning.PhrasePass: require that no variable value holds the variable end marker (character 5) and no translation holds the phrase end marker (character 7). This makes each round of the substitution loops in `cleanString` remove one end marker, which bounds the loops. The condition is sufficient, not necessary: `cleanString` also ends for many values that hold these characters (a value `a` followed by character 5, say), and only a value that rebuilds a whole placeholder makes it loop forever. The model says nothing about the values it excludes.
- The parser follows the code where the general description of Tucker differs from it:
  - For lines indented 0, 2, 2, 4, 2, 0, the code gives depths 0, 1, 1, 2, 1, 0, not 0, 0, 0, 1, 0, 0.
  - A `+name` line is lexed as a tag, with no automatic insertion.
  - The default tag name `Node.DEFAULT_TAG` is a constructor parameter of the parser, since its value is not part of this model.

## Findings

| source | as written | input that shows it | evidently intended | confidence | as-written member | corrected member |
|---|---|---|---|---|---|---|
| src/main/java/net/jextra/tucker/tucker/TagNode.java:279 | `hasStyleClass` calls `att.getValue().split(..)` without checking for a null value | a tag with a bare `class` attribute (no value), asked for any class | answer false: a class attribute with no value holds no class | not executed | Attributes.HasStyleClassAsWritten, Attributes.BareClassThrows, TreeSearch.FindFirstElementByClassThrows | Attributes.HasStyleClass, Attributes.AddStyleClassHas |
| src/main/java/net/jextra/tucker/tucker/HookBinding.java:103 | `testId.equals(id)` is called on the candidate's id, which may be null | a binding `div#x` matched against a `<div>` with no id | the candidate does not match | not executed | HookBindings.MatchesAsWritten, HookBindings.MatchesWithoutIdThrows, HookBindings.MatchesSelector, HookBindings.MatchesSelectorWithoutIdThrows, ScopeContexts.FirstHookWithoutIdThrows, Hardening.HookOfWithoutIdThrows | HookBindings.Matches, ScopeContexts.FirstHookSpec |
| src/main/java/net/jextra/tucker/tucker/Block.java:250 | `element.getId().toString()` is called on every tag, and `getId()` is null for a tag without an id | a block whose first tag has no id, followed by a tag with the id sought | skip tags without an id and go on searching | not executed | TreeSearch.FindByElementIdAsWritten, TreeSearch.FindByElementIdThrows | TreeSearch.FindByElementId |
