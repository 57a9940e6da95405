# Verified models of the XML toolkit's algorithms

The repository is an XML toolkit written in Go: RELAX NG validation, XPath maps, a compact
document store, Canonical XML, DTD reading, and the value types of XML Schema. Its hard
parts are places where a fast or stateful piece of code has to agree with a simple meaning.
This project models those parts and proves the agreement, for every input and every run.

| Cluster | Files | The fast form | The simple form |
|---|---|---|---|
| RELAX NG validation | `Relax*.dfy` | derivatives with simplifying constructors, static wrappers, interning and six memo tables | the relation of section 6.2 of the RELAX NG specification (OASIS, 3 December 2001) |
| RELAX NG compilation | `Grammar*.dfy`, `References.dfy` | one walk that reuses compiled definitions through the names recorded for them | reachability among references, with and without crossing an element; what a grammar matches as it is written |
| Shared open-tag table | `NameMemo*.dfy` | a lock-free snapshot with a locked pending table | every interleaving of atomic steps |
| Maps | `Trie*.dfy` | a persistent hash trie with builders that write in place | a list in order of insertion, and what a history put last |
| Document store | `Clone*.dfy`, `NameIndex.dfy`, `Burst*.dfy` | flat record arrays, counting sort, bit-set automaton | trees, a filtered walk, path matching |
| Canonical XML | `Canon*.dfy` | undo-logged maps and a shortcut | the namespace rules of Canonical XML 1.0 and Exclusive XML Canonicalization 1.0 |
| Text and numbers | `SectionText.dfy`, `Expansion*.dfy`, `LineEnds.dfy`, `Duration*.dfy`, `Calendar.dfy`, `Decimal.dfy` | budgets, in-place buffers, step-by-step parsing, wrapping arithmetic | what is written, folded, denoted or counted |

Code that changes state is modelled as a class or as a method on arrays, and proved equal to
a function; the theorems are about the functions. `Basics.dfy` holds what all share.

## Findings

Where the property one would expect is false of the code, the code is kept as it is, a lemma
gives an input that shows it, and another says when the property holds, exactly where the row
has "if and only if".

| What fails | Input | When it holds |
|---|---|---|
| At an element with no children the run keeps one of its two readings (as "", as nothing), not their choice; a valid document can be refused (`relaxng/validate.go:357-360`) | `RelaxExamples.EmptyElementLoses`; for any document with such an element below its root, `RelaxDocuments.Misled` | `RelaxDocuments.DecidedExactly`: every well-formed schema decides the document rightly if and only if no element of it but the document element is empty |
| An attribute value is tested for a live remainder instead of a finished one; a sequence of two values is accepted on its first (`relaxng/derive.go:565-570`) | `RelaxExamples.SequencedValueAccepted` | `RelaxValues.ErrsExactly`: where no part of the content is one that nothing matches, the test errs on a value if and only if the content does not match it and matches a longer sequence of strings beginning with it; `RelaxValues.AlwaysRight`: no value is tested wrongly if and only if whatever begins such a sequence matches |
| An attribute is given to the first repetition of a repeated group only (`relaxng/derive.go:472-518`), which section 7.1.2 is there to prevent; but the check of that section takes neither zeroOrMore nor mixed for a step of its path and follows no reference there (`relaxng/restrict.go:43-47`, `relaxng/restrict.go:255-300`) | `GrammarPaths.RepeatedGroupReceived`: a schema let by, and a valid document it refuses | `GrammarRestrictions.CompiledIsExact`, where repetitions really hold no attribute in a group; `GrammarPaths.OnlyOneWritingRefused`: the same schema is refused when written with oneOrMore |
| A cycle of references that crosses no element can be compiled, when the definition that would show it is reused after being left (`relaxng/compile.go:726-849`) | `GrammarMissed.MissedCycle`, three definitions | `GrammarFaults.CompilesExactly`: if no definition is on both kinds of cycle, compilation succeeds if and only if there is none in what the start leads to, nothing there is undefined, every pattern there has content, and no more than the allowed number of definitions is needed |
| Two keys whose hashes agree in the low 60 bits and differ above: a key put again gets a second entry, and look-up finds the first (`xdm/hamt.go:143-169`) | `TrieRuns.StaleAnswer` | `TrieRuns.RightIffTopFour`: every history is answered rightly if and only if no two hashes are so |
| Edit tokens are pointers to an empty struct, which Go does not promise to be distinct; a builder with the token of the map it begins with writes into that map (`xdm/hamt.go:42`, `xdm/maparray.go:250-272`) | `TrieTokens.TwoBuildersOneToken` | `TrieTokens.KeptIffForeign`: the map keeps its answers, whatever is set, if and only if none of its nodes carries the token |
| Leap years and day numbers disagree before year 1 (`xdm/datetime.go:303-323`, `xdm/datetime.go:411-425`) | the dates of `Calendar.Parts` | `Calendar.NextIsNext`: the day after has the next number if and only if the date is none of these |
| The upper year bound is called the exact point where day numbers leave 64 bits (`xdm/datetime.go:126-143`); it is 1969 years below it | `Calendar.YearsThatFit` | the same lemma: every day of a year fits if and only if the year lies between the first accepted year and 1969 years past the last |
| A load of the open-tag table can miss a name that is held throughout (`relaxng/pattern.go:192-217`); only work is lost | `NameMemo.SpuriousMiss`, a run from the empty table | `NameMemo.SoloLoad`: undisturbed, with the lock free, a load hits if and only if the name is held |
| A `]]>` inside a literal or a comment ends the INCLUDE section it stands in (`dtd/external.go:719-743`) | `SectionText.LiteralSplit`, the declaration of an entity whose value is `]]>`; `SectionText.ClosesEarly`, for any text | `SectionText.SectionsExact`, where no text holds a delimiter |
| Years, months, days, hours and minutes may be written with a point, as in "P1.0Y" (`xdm/duration.go:140-161`), which XML Schema does not allow | `Durations.WholeWithPoint`, for every number of years | `Durations.ParsedWasWritten` says what is parsed, points included |

## Model

Unless a row says otherwise, it holds for all values of its parameters.

| member | source | states |
|---|---|---|
| RelaxLaws.ChoiceLaw | relaxng/derive.go:196-271 | the simplifying choice, with its merging and reordering of alternatives, matches exactly what either side matches |
| RelaxLaws.GroupLaw | relaxng/derive.go:313-330 | the simplifying group matches exactly what the plain group does |
| RelaxLaws.InterleaveLaw | relaxng/derive.go:332-349 | the simplifying interleave matches exactly what the plain one does |
| RelaxLaws.OneOrMoreLaw | relaxng/derive.go:364-378 | the simplifying repetition matches exactly what the plain one does |
| RelaxLaws.PatEqSound | relaxng/derive.go:273-311 | patterns the shallow comparison calls equal are the same beneath their static wrappers |
| RelaxLaws.SizeTestHarmless | relaxng/derive.go:254-271 | comparing sizes before patterns finds every alternative a full comparison would, where wrappers report their sizes |
| RelaxQuotient.OpenQuotient | relaxng/derive.go:380-465 | for a pattern carried at any depth of open elements: the pattern accepts content beginning with an element if and only if its open-tag derivative accepts, for some reading of that element's content, what is left |
| RelaxQuotient.AttQuotientSound | relaxng/derive.go:472-518 | if excepts meet section 7.1.4 and attribute contents are one string at most, what the attribute derivative accepts, the pattern accepts with the attribute put back, at any depth |
| RelaxQuotient.AttQuotientComplete | relaxng/derive.go:472-518 | and if repeated content holds attributes only on their own, nothing is missed |
| RelaxQuotient.CloseQuotient | relaxng/derive.go:662-737 | the close of a start tag keeps exactly what needs no further attribute |
| RelaxQuotient.TextQuotient | relaxng/derive.go:578-660 | the text derivative is the exact quotient by a string, at any depth |
| RelaxQuotient.EndQuotient | relaxng/derive.go:739-750 | the end tag keeps exactly what needs no further content, one level up |
| RelaxText.TextExact | relaxng/derive.go:578-660 | within an element, lists, data, values and excepts included, the text derivative is the exact quotient |
| RelaxAttribute.ValueMatchExact | relaxng/derive.go:565-570 | the attribute test never refuses a value that matches, and is exact where the content is one string at most (sufficient; ErrsExactly has the condition) |
| RelaxValues.LeftIffBegins | relaxng/derive.go:578-644 | of content no part of which is dead: something is left after a string if and only if some sequence of strings beginning with it matches |
| RelaxValues.ErrsExactly | relaxng/derive.go:565-570 | of such content: the test errs on a value if and only if the content does not match the value and matches a longer sequence of strings that begins with it |
| RelaxValues.AlwaysRight | relaxng/derive.go:565-570 | so every value is tested rightly if and only if whatever begins a longer match is a match |
| RelaxAttribute.AttSound | relaxng/derive.go:472-518 | within an element, the attribute derivative accepts nothing the pattern does not |
| RelaxAttribute.AttComplete | relaxng/derive.go:472-518 | within an element, it misses nothing, under the restriction on repeated content |
| RelaxAttribute.CloseExact | relaxng/derive.go:671-737 | within an element, the close of a start tag keeps exactly what matches without attributes |
| RelaxRun.RunSound | relaxng/validate.go:254-412 | every document whose run ends in a nullable pattern is valid, for every schema whose excepts meet section 7.1.4 and whose attribute contents are one string at most |
| RelaxRun.RunComplete | relaxng/validate.go:254-412 | every valid document is accepted at whose empty elements the run loses no reading (a condition on the run; the one a caller can check is in DecidedExactly) |
| RelaxRun.RunExact | relaxng/validate.go:254-412 | on documents without an empty element the run decides validity |
| RelaxRun.EmptyExact | relaxng/validate.go:357-360 | at an empty element the run keeps both readings, whatever follows, if and only if reading it as nothing allows nothing more than reading it as "" |
| RelaxDocuments.DecidedExactly | relaxng/validate.go:254-412 | for every document: all schemas that meet the restrictions of section 7 decide it rightly if and only if no element but the document element is empty |
| RelaxDocuments.Misled | relaxng/validate.go:357-360 | for every other document, a schema meeting the restrictions that the document is valid against and refused by |
| RelaxDocuments.EmptyRootDecided | relaxng/validate.go:331-365 | an empty document element is always decided rightly |
| RelaxExamples.EmptyElementLoses | relaxng/validate.go:357-360 | a small schema and a valid document it refuses |
| RelaxExamples.SequencedValueAccepted | relaxng/derive.go:565-570 | an attribute of two values in sequence accepted on the first alone |
| RelaxExamples.RepeatedGroupLoses | relaxng/derive.go:472-518 | why AttComplete needs its restriction: an attribute in a repeated group, and content refused though it matches |
| RelaxReading.AttrsKept | relaxng/validate.go:430-441 | the attributes read of an element are those at the places, in order, of all that are no namespace declarations |
| RelaxReading.AttrsCounted | relaxng/validate.go:430-441 | each as often as it stands there, and no declaration |
| RelaxReading.ItemsRead | relaxng/validate.go:381-412 | the content read of a list of nodes: its element children in order, and around and between them one string each, of the text nodes there joined, where there are any |
| RelaxReading.ElementRead | relaxng/validate.go:331-441 | every element node is read as its tag with exactly these attributes and this content |
| RelaxReading.WhitespaceIs | relaxng/derive.go:752-759 | a string counts as white space exactly if it has no character but space, tab, line feed and carriage return |
| RelaxReading.TokensRead | relaxng/derive.go:761-780 | words written with white space before, between and after them are read as the tokens of a list |
| RelaxReading.NamesAre | relaxng/pattern.go:337-352 | a name class contains exactly the names it stands for, its excepts taken out |
| GrammarPaths.OnlyOneWritingRefused | relaxng/restrict.go:43-47 | the check of section 7.1.2 refuses such a schema written with oneOrMore and lets it by written with zeroOrMore |
| GrammarPaths.CompilesTo | relaxng/compile.go:553-690 | a source without references is compiled to its own pattern, the tables left as they were |
| GrammarPaths.RepeatedGroupReceived | relaxng/restrict.go:43-47 | for any three names and an attribute: the schema let by compiles, and a document valid against it is refused |
| RelaxMemo.AnyValueSame | relaxng/derive.go:524-558 | where the check says an attribute's value does not matter, the derivative is the same for every value and all bindings |
| RelaxMemo.TextFixedByParts | relaxng/derive.go:578-644 | a text derivative none of whose parts asked for bindings is the same under all bindings |
| RelaxBuilder.TakeOpen | relaxng/derive.go:380-433 | with any right contents of the intern table and the schema's tables, the answer is the derivative computed with none, and the tables stay right |
| RelaxBuilder.TakeText | relaxng/derive.go:578-644 | the same for text; and unless the run has noted that it asked for bindings, the answer is the same under all |
| RelaxBuilder.TakeAtt | relaxng/derive.go:472-518 | the same for attributes |
| RelaxBuilder.TakeStaticAtt | relaxng/derive.go:472-494 | a wrapper that answers from its table by the attribute's name alone, or computes and remembers, gives the plain derivative |
| RelaxBuilder.TakeClose | relaxng/derive.go:671-737 | the same for the close of a start tag, with the mark that says whether anything changed |
| RelaxBuilder.Open | relaxng/derive.go:118-132 | the run's own table, whatever right entries it holds, does not change the open-tag derivative |
| RelaxBuilder.Att | relaxng/derive.go:134-148 | nor the attribute derivative, though its entries are keyed without the bindings |
| RelaxBuilder.CloseTag | relaxng/derive.go:150-162 | nor the close |
| RelaxBuilder.End | relaxng/derive.go:164-176 | nor the end |
| RelaxMemoPoints.AddMemoPoints | relaxng/memo.go:29-125 | wrapping a compiled schema keeps its language, nullability and size, marks free of attributes only what is, and keeps whatever soundness and completeness of validation ask of it |
| RelaxValidator.Validator.ChildDeriv | relaxng/validate.go:254-329 | the walk over one node, its stacks restored, gives the function of the run unless a bound fired; one fires only for an element too deep or a pattern too large carried to an element or an attribute, and not with a pattern left alive if nothing is |
| RelaxValidator.Validator.ChildrenDeriv | relaxng/validate.go:331-412 | the walk over children, strings joined and whitespace treated by section 6.2.7, gives the function of the run unless a bound fired, under the same conditions |
| RelaxValidator.Validate | relaxng/validate.go:83-143 | accepts only valid documents, and refuses only invalid ones where no element but the root is empty, for schemas that meet the restrictions each needs; gives up for depth only where elements nest deeper than the bound, for size only where a carried pattern is larger, and accepts only within both; leaves the shared tables right |
| RelaxValidator.FirstElementIs | relaxng/validate.go:83-143 | what is validated of a document is its first child that is an element |
| RelaxBounds.FarIs | relaxng/validate.go:254-329 | an element is found too deep somewhere below a node if and only if the elements above and in it nest deeper than the bound |
| NameMemo.EveryRun | relaxng/pattern.go:182-262 | in every interleaving: hits return what some store put under that name, snapshot and pending together hold every name ever taken, at most 1024, and the count equals the pending entries whenever the lock is free |
| NameMemo.NothingLost | relaxng/pattern.go:219-262 | what is stored stays stored, along every continuation of a run |
| NameMemo.HitsAreAnswers | relaxng/pattern.go:192-217 | if everything stored is the one answer for its name, so is every hit |
| NameMemo.SoloLoad | relaxng/pattern.go:192-217 | in every state that keeps the invariant, so every reachable one, with the lock free: a load that nothing comes between hits, with a value stored under the name, if and only if the name is held |
| NameMemoWork.SoloStore | relaxng/pattern.go:219-262 | in such a state a store that nothing comes between puts its value unless the memo is full, and publishes what is pending if that is then more than is published |
| NameMemoWork.WorkBounded | relaxng/pattern.go:192-262 | in every interleaving: the entries that stores copy to publish are at most twice the stores; loads publish at most once in eight hits under the lock; and whenever the lock is free no more is pending than published, and fewer than eight hits are counted |
| NameMemo.SpuriousMiss | relaxng/pattern.go:192-217 | from the empty table: a store, then a load of the same name that misses |
| NameMemo.LoadOvertaken | relaxng/pattern.go:192-217 | the same from every state in which a thread is about to publish a name still pending |
| GrammarCompiler.Compiler.CompileRefNamed | relaxng/compile.go:712-849 | the walk with its maps and stack pushed and popped does what the function on states says, for one reference |
| GrammarCompiler.Compiler.Compile | relaxng/compile.go:553-671 | for one pattern, the element depth restored; that this means what the pattern does as written is GrammarMeaning.CompiledMeans |
| GrammarCompiler.Compiler.CompileChildren | relaxng/compile.go:508-525 | for children in order, stopping at the first fault |
| GrammarCompiler.CompileStart | relaxng/compile.go:269-295 | a whole grammar's start patterns by a fresh compiler: the result and the tables the theorems below are about; what they match is GrammarMeaning.CompiledMeans, when there is one GrammarFaults.CompilesExactly |
| GrammarTheorems.RefusalsRight | relaxng/compile.go:726-849 | a definition refused as recursive reaches itself without crossing an element, and one called undefined is |
| GrammarTheorems.SuccessRecords | relaxng/compile.go:726-849 | on success everything the start leads to is compiled, and what is recorded for a definition holds its references, only what they lead to, and not itself |
| GrammarTheorems.RecordedChains | relaxng/compile.go:712-849 | on success, references chain exactly as recorded names do |
| GrammarMissed.MissedCycle | relaxng/compile.go:726-849 | three definitions that compile although one reaches itself without crossing an element |
| GrammarExact.CyclesRefused | relaxng/compile.go:726-849 | if no definition is on both kinds of cycle, success means no compiled definition reaches itself without crossing an element |
| GrammarExact.CheckExact | relaxng/compile.go:726-849 | for such grammars, unless refused for another fault: compilation succeeds if and only if no definition the start leads to reaches itself without crossing an element |
| GrammarExact.CompiledIsRanked | relaxng/compile.go:1102-1123 | and then references can be ranked, so that nullability and every derivative come to an end on lazily resolved references |
| GrammarFaults.RefusedForFault | relaxng/compile.go:553-849 | a refused grammar has a fault in what its start leads to: a pattern without content, an undefined name, too many definitions, or a definition that reaches itself without crossing an element |
| GrammarFaults.CompilesExactly | relaxng/compile.go:553-849 | if no definition is on both kinds of cycle: compilation succeeds if and only if there is none of these |
| GrammarMeaning.CompiledMeans | relaxng/compile.go:500-690 | for a grammar that compiles and whose references can be ranked: attributes and content match the compiled start if and only if they match the patterns as written, joined as the start says, each case of a pattern read by its own rule and each reference by its definition's bodies |
| GrammarMeaning.SourceExists | relaxng/compile.go:1102-1123 | every grammar that compiles and has no definition on both kinds of cycle can be ranked so |
| GrammarSchema.CompiledIsTranslated | relaxng/compile.go:553-690 | the start pattern and every definition's are the grammar's own, each reference standing for its definition's pattern, built as the compiler builds them; GrammarMeaning.CompiledMeans says what they match |
| GrammarKinds.FoundAll | relaxng/restrict.go:40-77 | the definitions found that may stand in an except, in an attribute, in a repetition or as a start include every set of definitions that may |
| GrammarKinds.ContentHolds | relaxng/restrict.go:40-77 | what is compiled of sources of such a kind is of that kind, through references |
| GrammarRestrictions.FoundShows | relaxng/restrict.go:40-77 | if any choice of definitions shows that a grammar keeps to the restrictions on excepts and attributes, those found do |
| GrammarRestrictions.CompiledIsSound | relaxng/restrict.go:40-77 | a grammar that compiles, has no definition on both kinds of cycle and keeps excepts to data and values and attributes to one string gives a schema that meets what soundness of the run requires |
| GrammarRestrictions.CompiledIsExact | relaxng/restrict.go:40-77 | one that also keeps attributes of repetitions out of groups, as section 7.1.2 asks, and its start to elements gives a well-formed schema, so that DecidedExactly speaks of it |
| GrammarRestrictions.ValidateCompiled | relaxng/validate.go:83-143 | from a compiled grammar, memo points added, to the verdict: what is accepted is valid by the grammar as compiled and, if it conforms to section 7 and no element but the root is empty, what is refused is not |
| GrammarMeaning.ValidateGrammar | relaxng/validate.go:83-143 | the same from the grammar as written: what is accepted is what its patterns ask for and, if it conforms to section 7 and no element but the root is empty, what is refused is not |
| TrieLaws.GetExact | xdm/hamt.go:54-84 | look-up returns an entry if and only if the trie holds it under that key |
| TrieLaws.NodeDistinct | xdm/hamt.go:143-186 | no key is held twice in a well-formed trie |
| TrieChanges.PutValid | xdm/hamt.go:99-186 | putting keeps the trie well formed, slot counts and paths included, if hashes that agree in their low 60 bits are equal |
| TrieChanges.PutExact | xdm/hamt.go:99-186 | under the same condition, putting replaces the entry of that key, or adds one and says so |
| TrieChanges.RemoveExact | xdm/hamt.go:188-246 | removing drops exactly that key's entry, keeps the trie well formed, and says whether it was there |
| TrieMap.GetRefines | xdm/maparray.go:338-349 | look-up in the map is look-up in the list |
| TrieMap.PutRefines | xdm/maparray.go:221-234 | putting a key changes its value at its place in the list, or adds it last; under the condition on hashes |
| TrieMap.RemoveRefines | xdm/maparray.go:305-328 | removing a key drops its pair, the others keeping their order |
| TrieRuns.RunRefines | xdm/maparray.go:221-368 | after every history of puts and removals the map stands for the list, and counts it |
| TrieHistory.RunTold | xdm/maparray.go:221-368 | said of the history alone: a map holds a value under a key if and only if the last operation on the key put it, and its keys stand in the order in which they were brought in, put back after a removal counting anew; under the condition on hashes |
| TrieHistory.GetTold | xdm/maparray.go:338-349 | and look-up finds a value if and only if the last operation on the key put it |
| TrieRuns.RightIffSpread | xdm/hamt.go:143-169 | every history is answered rightly if and only if hashes that agree in their low 60 bits are equal |
| TrieRuns.RightIffTopFour | xdm/hamt.go:20-31 | the same of 64-bit hashes: if and only if none agree in their low 60 bits and differ in their top four |
| TrieRuns.StaleAnswer | xdm/hamt.go:143-169 | for any two such keys, three puts after which the first is held twice and look-up gives its old value |
| TrieHeap.GetFrom | xdm/hamt.go:54-84 | look-up on the nodes is look-up in the trie they hold |
| TrieHeap.PutNode | xdm/hamt.go:86-138 | putting with a token that none of the kept nodes carries gives nodes that hold the new trie, writing only nodes of that token outside them |
| TrieHeap.RemoveNode | xdm/hamt.go:188-234 | removing writes no node that exists |
| TrieSession.HMap.Put | xdm/maparray.go:221-234 | a new map for the new list; nothing that exists is written |
| TrieSession.HMap.RemoveAll | xdm/maparray.go:305-328 | a map for the list without the keys; nothing that exists is written |
| TrieSession.HMap.Get | xdm/maparray.go:338-349 | the value the list has |
| TrieSession.HBuilder.From | xdm/maparray.go:254-257 | a builder beginning with a map none of whose nodes carries its token holds that map's list and never writes those nodes |
| TrieSession.HBuilder.Set | xdm/maparray.go:259-274 | sets the key in the list, writing only the builder's own nodes |
| TrieSession.HBuilder.Lookup | xdm/maparray.go:276-289 | the value the builder's list has |
| TrieSession.HBuilder.Build | xdm/maparray.go:291-299 | hands over a map for the list |
| TrieSession.Start | xdm/maparray.go:250-257 | among any maps and builders, one more builder; the map it begins with must not carry its token, other tokens may be anything |
| TrieSession.StartEmpty | xdm/maparray.go:250 | a builder of its own, with any token |
| TrieSession.PutInto | xdm/maparray.go:221-234 | among any maps and builders, one more map; none that exists changes |
| TrieSession.RemoveFrom | xdm/maparray.go:305-328 | the same of removing |
| TrieSession.SetIn | xdm/maparray.go:259-274 | what one builder sets, no map handed out before and no other builder sees |
| TrieSession.BuildFrom | xdm/maparray.go:291-299 | the builder's map joins the others, and the builder is gone |
| TrieTokens.ForeignKeepsAll | xdm/hamt.go:86-138 | if the map a builder begins with carries no such token, every map in the store answers as before, whatever is set |
| TrieTokens.SharedTokenShows | xdm/hamt.go:86-93 | if it does, there is a key and a value that, set, changes what that map answers |
| TrieTokens.KeptIffForeign | xdm/hamt.go:86-138 | so it keeps its answers under every sequence of sets if and only if none of its nodes carries the token |
| TrieTokens.TwoBuildersOneToken | xdm/hamt.go:42 | two builders with one token, the second's set seen in the first's map |
| CanonLaws.ShortcutExact | c14n/canon.go:355-384 | considering only an element's own declarations when its parent was output renders what scanning the whole scope would |
| CanonLaws.MeetsStandard | c14n/canon.go:355-419 | inclusive canonicalization renders what section 2.3 of Canonical XML 1.0 says, for any choice of elements, where no prefix is undeclared |
| CanonLaws.OutputRight | c14n/canon.go:355-419 | both algorithms: every prefix used in the output resolves there to its source URI, declarations are sorted, distinct, and none repeats what is in force |
| CanonLaws.Apex | c14n/canon.go:234-353 | both results for a whole canonicalization |
| CanonLaws.FixedPoint | c14n/canon.go:355-419 | canonicalizing tidy output gives it back, inside whatever is in force around it |
| CanonLaws.OutputUtilised | c14n/canon.go:355-384 | under the exclusive rule every declaration output is of a prefix its element uses, or of one listed |
| CanonExclusive.ExclusiveExact | c14n/canon.go:268-419 | under the exclusive rule, for every choice of elements: the output is the chosen elements in document order, each under its nearest chosen ancestor, with its attributes; a declaration stands on a tag if and only if its prefix is utilised there or listed, is in scope or the default, and the tags around do not already say the same; declarations are in order and say what the source says |
| CanonExclusive.ExclusiveDocument | c14n/canon.go:234-353 | so for a whole document |
| CanonExclusive.BeforeIs | c14n/canon.go:386-419 | prefixes are in order of their first character that differs, a shorter one first |
| CanonExclusive.AllowedIs | c14n/canon.go:268-353 | a document is refused if and only if an element is too deep or has a declaration that is not accepted |
| CanonLaws.OutputFixed | c14n/canon.go:355-419 | both algorithms, from any namespace-well-formed element: the output, read again and canonicalized by the same rules, comes back |
| CanonWalk.Bindings.Set | c14n/canon.go:35-40 | declares a prefix so that rewinding to any earlier mark gives what it gave before |
| CanonWalk.Bindings.Restore | c14n/canon.go:42-51 | rewinds map and log to a mark |
| CanonWalk.Canon.WriteNamespaces | c14n/canon.go:386-419 | from the candidates noted renders exactly those that change what is in force, in order, once each, and records them |
| CanonWalk.Canon.Element | c14n/canon.go:268-353 | the walk gives the rendering, or refuses exactly what is too deep or declares what is not accepted, and leaves both maps and their logs as they were |
| BurstMatch.StateExact | xdm/bursts.go:130-146 | bit k of the state at a path is set if and only if the first k steps can be placed along it in order, the last at its end unless the next is a descendant step |
| BurstMatch.MatchExact | xdm/bursts.go:109-128 | the last bit is set if and only if the path matches the pattern |
| BurstMatch.DeadBelow | xdm/bursts.go:109-128 | where no bit is left nothing below matches, so the subtree may be dropped |
| BurstMatch.StateFits | xdm/bursts.go:130-146 | no bit beyond the number of steps is ever set |
| Bursts.ParseBursts | xdm/bursts.go:54-102 | delivers the outermost matching elements, each once, in document order, with the chain above each, alone or in batches; if the callback fails, what was delivered is the beginning of that, up to the failure |
| BurstPlaces.OutermostIs | xdm/bursts.go:54-102 | what is to be delivered, by places in the document: each element whose path of names matches and above which no path does, once, in document order, with the elements above it |
| CloneLaws.CloneExact | xdm/clone.go:154-259 | records renumbered by the index and written at their places are the layout of the source tree with its edits, links, ends, last children and attribute counts included |
| CloneLaws.IndexRises | xdm/clone.go:44-103 | the index leads each kept record to a place of its own, in order |
| CloneWork.Number | xdm/clone.go:44-103 | one pass gives every record its number; it refuses exactly when an element would have too many attributes |
| CloneWork.Place | xdm/clone.go:154-259 | a second pass writes every kept record and every addition at its place |
| CloneWork.Clone | xdm/clone.go:36-260 | for every subtree, set of dropped leaves and added attributes: the layout of the edited tree, and an index that leads records to their copies |
| CloneMeaning.LayoutHolds | xdm/clone.go:154-259 | records laid out hold the tree when read by their links: attributes behind their element, the first child behind them, each next sibling where the one before ends, and parent, preceding sibling and last child where they are |
| CloneMeaning.EditReads | xdm/clone.go:44-103 | the edited tree, read from left to right, is the source with each token edited on its own: texts to be dropped left out, attributes added behind an element's own |
| NameIndex.BuildIndex | xdm/nameindex.go:61-110 | the counting sort gives, for each expanded name, the elements of that name in order, several prefixed names sharing one |
| NameIndex.NamedDescendants | xdm/nameindex.go:29-58 | the slice and binary search give what a walk of the descendants gives, in document order |
| NameIndex.WalkHas | xdm/nameindex.go:29-58 | such a walk lists exactly the elements of that URI and local name, whatever their prefix |
| SectionText.SectionsExact | dtd/external.go:661-719 | the text of any subset made of declarations, nested sections, and ignored sections holding any nested `<![` and `]]>`: resolving it gives the declarations that count, exactly, if its INCLUDE sections nest within the limit, and is refused if they do not |
| SectionText.CopiesForeign | dtd/external.go:661-719 | a text in which no `<![` is followed by a keyword is copied through, whatever sections follow |
| SectionText.ForeignKept | dtd/external.go:661-719 | so on its own it resolves to itself |
| SectionText.NoBracket | dtd/external.go:661-719 | a keyword without its `[` is refused |
| SectionText.NotClosed | dtd/external.go:661-719 | so is a section that is not closed |
| SectionText.SectionsShrink | dtd/external.go:661-719 | resolving never lengthens any text |
| SectionText.MatchingSectionEnd | dtd/external.go:725-743 | the counting scan finds the close that matches, as the recursive definition has it |
| SectionText.Conditionals | dtd/external.go:661-719 | the loop that takes sections one after another resolves the text |
| SectionText.ClosesEarly | dtd/external.go:725-743 | a `]]>` in the middle of what is included ends the section there, and the one that should is left in the text |
| SectionText.LiteralSplit | dtd/external.go:725-743 | so it does in the literal of an entity declaration |
| ExpansionRules.LoadBounded | dtd/external.go:205-268 | with a limit on entity text, what is merged is no longer than the internal subset plus that limit plus one, whatever the nesting, fetches and split across subsets; and no more is fetched or read than allowed |
| ExpansionRules.ExpandedPaid | dtd/external.go:548-642 | where expansion succeeds under a limit, it yields no more text than it was given and was charged for, and the charges keep within the limit; no more is fetched or read than allowed, however it ends |
| ExpansionRules.ChainsEnd | dtd/external.go:548-642 | among entities declared with their text: where expansion succeeds, every chain of references from the text is within the depth allowed, names no entity twice and none being expanded, so every cycle is refused |
| ExpansionRules.NestingEnds | dtd/external.go:548-642 | of every entity, fetched ones included: where expansion succeeds, every nesting of substitutions in it is of entities all different, none being expanded around it, within the depth allowed |
| Expansion.Loader.Expand | dtd/external.go:548-642 | the scan with its counters and maps does what the rules say, and what is being expanded is the same afterwards, however it ends; which text that is, is ExpansionExact.ExpandedExact |
| Expansion.Load | dtd/external.go:205-268 | one loader for both subsets gives what the rules give, within the bound; which text that is, is ExpansionExact.LoadedExact |
| ExpansionExact.ExpandedExact | dtd/external.go:548-642 | expanding gives a text if and only if the subset can be read as characters, constructs, declarations with references inside, and references each opening into its entity's text, no entity within itself and all limits kept, and the text is that with each reference replaced by what its entity's text stands for |
| ExpansionExact.LoadedExact | dtd/external.go:205-268 | loading gives a text if and only if it is what the internal subset stands for, a newline, and what the external one stands for with its sections resolved, all limits kept; a name declared twice means its first declaration, the internal subset's before the external one's |
| ExpansionMeaning.ExpandedComes | dtd/external.go:548-642 | for a subset so read: expanding gives what it stands for, having fetched, read and charged exactly what the reading costs, if the limits and the depth allow it and no entity stands within itself, and otherwise is refused |
| ExpansionText.DeclarationIs | dtd/external.go:778-799 | the scan for the end of a declaration finds the first `>` outside literals and groups, or that there is none |
| ExpansionText.ConstructIs | dtd/external.go:751-771 | the scan for a construct finds the comment, declaration or instruction that begins there, and none at a section |
| ExpansionText.StripIs | dtd/external.go:807-823 | what is fetched loses exactly a text declaration at its start |
| LineEnds.FoldTwice | xdm/lineend.go:67-96 | folding is idempotent |
| LineEnds.FoldPicks | xdm/lineend.go:67-96 | byte by byte: only the LF behind a CR is left out, and only a CR is changed, into LF, unless a NEL follows it |
| LineEnds.FoldInPlace | xdm/lineend.go:67-96 | folding in the buffer leaves what is decided folded in front and what is not yet decided behind |
| LineEnds.ReadAll | xdm/lineend.go:46-65 | however the source splits its bytes, whatever the window and the caller's reads, what is read is the input folded at once |
| Durations.ParsesWritten | xdm/duration.go:28-131 | every duration as the program has them written (decimals whose value before any unit but S is whole) is parsed to what it denotes, and refused if that is out of range |
| Durations.ParsedWasWritten | xdm/duration.go:28-131 | nothing else is parsed |
| Durations.WholeWithPoint | xdm/duration.go:140-161 | a number of years written with a point and a zero is parsed as without |
| DurationMeaning.ParseMeans | xdm/duration.go:28-161 | of every form, from its fields alone and with white space around: refused for its months if they are out of range; otherwise refused for its kind exactly if a yearMonthDuration has a day, hour, minute or second that is not zero, or a dayTimeDuration a year or month; and if parsed, months are 12 times the years and the months, seconds 86400, 3600, 60 and 1 times the other fields, summed |
| DurationMeaning.ParsedIsSpelled | xdm/duration.go:28-131 | whatever is parsed is such a form with white space around |
| DurationMeaning.PrintMeans | xdm/duration.go:174-232 | what is printed is a form in canonical shape that means the duration |
| Durations.ParseDuration | xdm/duration.go:28-161 | the scan that shortens its string computes the parse |
| Durations.PrintDuration | xdm/duration.go:174-232 | the subtractions print the canonical form |
| Durations.RoundTrip | xdm/duration.go:174-232 | every duration with its months in range and its seconds a decimal, printed and parsed as a kind it can be of, is the same but for the sign of a zero; of any other kind it is refused |
| Durations.ParsedIsPrintable | xdm/duration.go:28-131 | whatever is parsed can be printed and parsed again |
| Durations.PrintedOnce | xdm/duration.go:174-232 | durations are printed alike if and only if they are the same but for the sign of a zero |
| DurationText.PrintReads | xdm/duration.go:252-276 | a decimal in fewest digits is read back as printed |
| DurationText.NormalKeeps | xdm/duration.go:140-161 | dropping the zeros at the end of a fraction keeps its value |
| Calendar.NextIsNext | xdm/datetime.go:411-425 | the day after has the next number if and only if the date is not the end of a February on which the two leap rules differ, nor the last day before year 1 |
| Calendar.LaterIsGreater | xdm/datetime.go:411-425 | from year 1 on a later valid date has a greater number |
| Calendar.NumbersCount | xdm/datetime.go:411-425 | the date n days after 1 January 1970 has number n |
| Calendar.ExactIfItFits | xdm/datetime.go:411-425 | the wrapping 64-bit computation gives the true number if and only if that fits, whatever wraps on the way |
| Calendar.YearsThatFit | xdm/datetime.go:126-143 | every day of a year has its number in 64 bits if and only if the year is between the lower bound and 1969 past the upper |
| Calendar.DateTime.NormalizeHour24 | xdm/datetime.go:93-123 | hour 24 becomes hour 0 of the day after, the count of hours unchanged where the rules agree |
| Decimal.DecimalMagnitudeOf | xdm/decimal.go:35-86 | of a fraction in lowest terms: succeeds if and only if some decimal equals it, gives one that does, and none has fewer digits after the point |
| Decimal.DecimalIff | xdm/decimal.go:35-86 | a fraction is a decimal if and only if its denominator has no prime but 2 and 5 |
| Decimal.FewestDigits | xdm/decimal.go:70-86 | and no decimal of it has a smaller scale than the larger of the two exponents |

## Left out

RELAX NG
- RelaxRun.RunComplete: its condition is on the run; DecidedExactly has the exact condition on documents.
- RelaxQuotient.AttQuotientSound: requires what the restrictions of section 7 give; the competition and content-kind checks of `relaxng/restrict.go:480-910` are not modelled, because a recursive reference in progress contributes nothing there.
- RelaxBuilder.TakeOpen: patterns are values, so equal patterns are one; that interning makes comparison by address agree is not stated.
- GrammarExact.CyclesRefused: its condition is sufficient; where a definition is on both kinds of cycle, RecordedChains says what is known.
- GrammarFaults.CompilesExactly: of grammars in which no definition is on both kinds of cycle; in others what is caught depends on the order of the walk, and RefusedForFault, RefusalsRight and RecordedChains say what holds of all.
- GrammarRestrictions.CompiledIsSound: asks that an attribute's content be visibly one string (no group of two parts, mixed or interleave), which is sufficient; what the test of values needs exactly is in RelaxValues.
- GrammarPaths.RepeatedGroupReceived: of the check in `relaxng/restrict.go` only the paths of section 7.1.2 are modelled, on sources within one element.
- RelaxAttribute.ValueMatchExact: its condition on the content is sufficient; RelaxValues.ErrsExactly has the exact one, value by value.
- RelaxValues.ErrsExactly: asks that no part of the content be one that nothing matches, as section 4.20 leaves them; a datatype whose parameters admit no string could still make one.
- NameMemo.EveryRun: one table, steps of loads and stores as atomic; the memory model below them is assumed.
- Datatypes are parameters: any check and equality, flagged as asking for bindings or not.
- Error texts, paths and positions; the estimate of static sizes truncated to 32 bits; a builder with no tables is one that is not live.
- GrammarCompiler.CompileStart: how definitions of one name are collected and combined, and the checks of the whole grammar that follow (names that resolve nowhere, datatypes in unused definitions); none of them looks for recursion.
- Nested grammars, parent references, includes and external references; names of definitions are numbers.

Maps
- TrieMap.PutRefines: keys are given in their canonical form (`xdm/maparray.go:86-217` is not modelled) and values are numbers.
- TrieTokens.KeptIffForeign: the nodes are cells of a store, so that two tokens can be equal; the classes of TrieHeap and TrieSession take the token as a number.
- Arrays of members and Flatten.

Documents
- CloneWork.Clone: the short way without edits, node types, base URIs and document URIs beside the records, and the flag for counts past 16 bits already set on a source record.
- Bursts.ParseBursts: rewinding of text and name stores and taking over whole chunks; sizes of records and text are oracles; bits are a set, which StateFits shows to fit a word.
- NameIndex.BuildIndex: records in one sequence, and one builder at a time.

Canonical XML
- CanonLaws.MeetsStandard: for node sets that choose elements with all their namespace nodes; sets that choose namespace nodes apart (`c14n/canon.go:421-521`) are not modelled.
- CanonWalk.Canon.Element: text, comments, escaping, the output buffer, inherited xml: attributes and xml:base.

Text and numbers
- Expansion.Load: which parameter entities a text declares and what the resolver finds are parameters; the base of nested references is carried but decides nothing but what the resolver returns; which limit or fault a refusal names, where several apply, is not stated.
- SectionText.SectionsExact: text is without section delimiters; ClosesEarly shows what one inside a literal or a comment does.
- ExpansionRules.ChainsEnd: of entities declared with their text; NestingEnds is about those that are fetched too.
- LineEnds.ReadAll: an error of the source ends the input.
- Durations.RoundTrip: seconds are terminating decimals, since nothing else is parsed or printed.
- Decimal.DecimalMagnitudeOf: the fraction comes in lowest terms, as the rational type keeps it; a missing rational is not modelled.
- Calendar.ExactIfItFits: parsing of dates and time zones is not modelled.
