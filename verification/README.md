# Models of the text shaper's reference tools

`lib/ufont/tools` and `lib/ugfx/tools` hold the executable models that the assembly of the text shaper and of the
icon renderer follows. This project says in Dafny what the algorithms among them do and proves that it is what they
are for:

* **Syllable grammars** (`syllable_*.dfy`). Patterns denote languages of category words. They are built into a
  nondeterministic automaton, that one is made deterministic over category classes, and the machine cuts a text by
  longest match. The machine is proved to answer every word with the type of the first rule that matches it.
* **The bidirectional algorithm** (`bidi_*.dfy`, UAX #9). Explicit levels with the bounded status stack, isolates,
  isolating run sequences, weak and neutral types, brackets, levels and visual order. Proved are that isolates keep
  their content to themselves, that the sequences are a partition, what each rule does place by place, that levels are
  the least that suit their types, and a closed form of the visual order.
* **Brotli** (`brotli_*.dfy`, RFC 7932). The stream is described by functions of the input and a place in it; the
  decoder, a set of methods over a bit reader, computes exactly what they say or fails where they do. Proved are the
  prefix codes, context maps, literal contexts, distances, dictionary words, the bytes each meta-block adds,
  termination, and that every text, and any literals with a copy of them, are the output of some stream.
* **The shaping buffer and plan** (`buffer*.dfy`, `stable_sort.dfy`, `quicksort.dfy`, `lookup_*.dfy`,
  `propagate.dfy`). Cluster values under merging, sorting and deletion, the in-place three-way quicksort, the merged
  lookups of a stage, and the settling of attachments.
* **Three smaller pieces.** The stretch of Syriac abbreviation marks (`stretch.dfy`), the three-level character table
  (`trie.dfy`), and the icon format with its readers (`uic_*.dfy`).

Loops, in-place updates and objects of the original are methods, arrays and classes here, each proved against a
function or predicate that says what is computed; the theorems are lemmas about those. `dafny verify dfyconfig.toml`
checks everything.

## Where the code differs from what is said of it

The code is followed; what it does instead is proved.

* `fraction_bits` is documented as the largest number of fraction bits, up to 14, with which every coordinate fits 16
  bits (lib/ugfx/tools/uic.py:40). It compares magnitudes with 32767, so it passes over a number of bits with which a
  coordinate would become exactly -32768. One point at -2 fits with 14 bits and gets 13 (`UicBody.LowestIsPassedOver`).
  The number chosen is the largest possible one if and only if no number of bits from 1 to 14 lets everything be
  written and something be written as -32768 (`UicBody.LargestWritable`); and whenever some number of bits lets
  everything be written the one chosen does (`UicBody.ChosenWrites`).
* Merging clusters while there is no output looks back no farther than the cursor
  (lib/ufont/tools/shapemodel.py:372-390). When the cursor stands inside a run of one cluster value, entries that
  shared the value come apart (`BufferClusters.CutExample`). Along monotone values this happens if and only if the
  merge is of two or more glyphs, the looking back stops inside a run, and that run's value is not the least of the
  range (`BufferClusters.SeparatesWhenCut`). With output, as in `merge_out_clusters` and `delete_glyph`, it never does.
  A sort, which merges as it moves glyphs, does so exactly when it moves a glyph into the run the cursor stands in
  (`BufferSortCuts.SortSeparates`).
* The comment on the code length code (lib/ufont/tools/brotlimodel.py:121) lists the codes with their last bit first.
  The branches read 00, 01, 10, 110, 1110 and 1111 for 0, 3, 4, 2, 1 and 5, the canonical code of the lengths in
  section 3.5 of RFC 7932 (`BrotliLengths.ReadSmall`).
* A syllable's value is its serial moved up by four bits and its type (lib/ufont/tools/syllabic.py:18). A type of 16 or
  more runs into the serial, and neighbouring syllables may get one value (`SyllableScan.LargeTypesMeet`). The cuts are
  read back if and only if no neighbours do (`SyllableScan.ReadBackWhenTold`); with types below 16 they never do.
* The test whether a block type exists (lib/ufont/tools/brotlimodel.py:231-232) can never fail
  (`BrotliBlocks.NextSound`).
* A category with one block type has no type code. When its 2^24 symbols are used up the original stops with an
  attribute error; here that is a damaged stream (`BrotliBlocks.Category.Take`).

## Model

| member | source | states |
|---|---|---|
| `Patterns.FirstRank` | lib/ufont/tools/syllable.py:106-111 | The rank of a word is that of the first rule of the grammar whose language holds it, and the number of rules when none does |
| `SyllableBuild.Nfa.State` | lib/ufont/tools/syllable.py:83-86 | A new state has the next number and no transitions; the automaton's transitions are the same set |
| `SyllableBuild.Nfa.AddEdge` | lib/ufont/tools/syllable.py:88-89 | Exactly one labelled transition more |
| `SyllableBuild.Nfa.AddEps` | lib/ufont/tools/syllable.py:91-92 | Exactly one transition more that reads nothing |
| `SyllableBuild.Nfa.Closure` | lib/ufont/tools/syllable.py:94-102 | The worklist ends and returns all states, and no others, that paths reading nothing reach from the given ones |
| `SyllableNfa.FragmentBetween` | lib/ufont/tools/syllable.py:29-74 | What a pattern adds between two shared states never enters its start nor leaves its end, and touches only its own states besides |
| `SyllableNfa.FragmentSound` | lib/ufont/tools/syllable.py:29-74 | Every path through what a pattern adds reads a word of the pattern's language, for every nesting of seq, alt, opt and star |
| `SyllableNfa.FragmentComplete` | lib/ufont/tools/syllable.py:29-74 | Every word of the pattern's language is read by some such path |
| `SyllableBuild.Build` | lib/ufont/tools/syllable.py:22-26 | Building a pattern between two states adds exactly the pattern's fragment to the automaton and numbers its states from the next free one |
| `SyllableBuild.BuildSeq` | lib/ufont/tools/syllable.py:38-49 | A sequence adds its parts one after another through new states, or one empty transition when it has none |
| `SyllableBuild.BuildAlt` | lib/ufont/tools/syllable.py:52-56 | An alternative adds all its parts between the same two states |
| `SyllableBuild.BuildStar` | lib/ufont/tools/syllable.py:66-74 | A star adds its part between two new states and the three empty transitions of the loop |
| `SyllableBuild.BuildGrammar` | lib/ufont/tools/syllable.py:112-118 | The automaton built for a grammar has exactly the transitions, states and accepting ranks of the grammar's automaton as a value |
| `SyllableBuild.GrammarShape` | lib/ufont/tools/syllable.py:112-118 | No transition enters state 0, all stay among the states, and every accepting rank is a rule's |
| `SyllableBuild.GrammarSound` | lib/ufont/tools/syllable.py:112-118 | A path from the start to an end state has read a word of the very rule whose rank the state has |
| `SyllableBuild.GrammarComplete` | lib/ufont/tools/syllable.py:112-118 | Every word of a rule leads from the start to that rule's end state |
| `SyllableDfa.Classes` | lib/ufont/tools/syllable.py:119-130 | A listed category's class is read by exactly the edge labels that read the category; different classes are told apart by some label; class 0 stands for the categories not listed, the others come in order of their least category |
| `SyllableCompiler.Move` | lib/ufont/tools/syllable.py:141-145 | Exactly the states that edges reading the class lead to from the subset |
| `SyllableCompiler.AcceptType` | lib/ufont/tools/syllable.py:137-138 | The type of the least rank among the subset's end states, -1 without any |
| `SyllableCompiler.Entry` | lib/ufont/tools/syllable.py:140-152 | A table entry is -1 when there are no moves, else the number of the closed set of moves, which is never 0; known subsets keep their numbers and a new one gets the next |
| `SyllableCompiler.Determinise` | lib/ufont/tools/syllable.py:132-156 | The subset worklist ends with a full table over distinct subsets, of which the first is the closed start, each row right for every class and each subset accepted with its least rank |
| `SyllableCompiler.Bounded` | lib/ufont/tools/syllable.py:132-154 | There are never more numbered subsets than subsets of the states, which is why the worklist ends |
| `SyllableCompiler.RunHits` | lib/ufont/tools/syllable.py:132-156 | After any word the machine is in the subset of exactly the states the word reaches, dead only when it reaches none, and after a non-empty word never in state 0 |
| `SyllableCompiler.Dfa` | lib/ufont/tools/syllable.py:105-156 | For every grammar and every non-empty word whose categories are listed or used by no pattern the machine answers the type of the first rule whose language holds the word, -1 when none does; and all its lookups are in range |
| `SyllableScan.LongestAt` | lib/ufont/tools/syllable.py:164-173 | The longest non-empty prefix of the rest that any rule matches, typed by the first rule that matches it; none when no rule matches any |
| `SyllableScan.Scan` | lib/ufont/tools/syllable.py:159-175 | The pieces are contiguous, non-empty and the longest matches, and cover the text; otherwise a place was reached at which nothing matches, which cannot be with a grammar that has ANY |
| `SyllableScan.CutsUnique` | lib/ufont/tools/syllable.py:159-175 | Of two ways to cut a text into longest matches one begins with the other, so there is one cut only |
| `SyllableScan.StuckIsFinal` | lib/ufont/tools/syllable.py:172 | A text whose cutting gets stuck anywhere has no complete cut |
| `SyllableScan.FindSyllables` | lib/ufont/tools/syllabic.py:11-22 | Over each piece the values are the bits of a serial that goes 1 to 15 over and over, moved up by four, and of the type, whatever size it has; broken is returned exactly when some piece has the broken type |
| `SyllableScan.PackBits` | lib/ufont/tools/syllabic.py:18 | A syllable's value has bit k exactly when the type has it, or the serial has bit k - 4 |
| `SyllableScan.Syllables` | lib/ufont/tools/syllabic.py:25-33 | The runs cover the values, each as long as the value stays the same |
| `SyllableScan.CutsReadBack` | lib/ufont/tools/syllabic.py:11-33 | Where neighbouring pieces have different values the runs read back are exactly the cuts made, although serials wrap |
| `SyllableScan.SmallTypesTold` | lib/ufont/tools/syllabic.py:14-21 | With types below 16 neighbouring pieces always have different values |
| `SyllableScan.ReadBackWhenTold` | lib/ufont/tools/syllabic.py:11-33 | The runs read back are the cuts made if and only if neighbouring pieces have different values, so always with types below 16 |
| `SyllableScan.LargeTypesMeet` | lib/ufont/tools/syllabic.py:18 | The second and the third syllable of a text have one value if both are of type 16 |
| `BidiIsolates.MatchingPdi` | lib/ufont/tools/bidi.py:24-37 | The linear search returns the PDI that the recursive definition finds, or the length of the text |
| `BidiIsolates.MatchBalanced` | lib/ufont/tools/bidi.py:24-37 | The search from an initiator finds a PDI if and only if the text between is balanced and without a separator (BD9) |
| `BidiIsolates.StackMatchesSearch` | lib/ufont/tools/bidi.py:136-145 | The stack pairs a PDI with an initiator if and only if the linear search from that initiator finds that PDI |
| `BidiIsolates.MatchAll` | lib/ufont/tools/bidi.py:136-145 | The matching by a stack holds all pairs that the linear search finds, and no others |
| `BidiIsolates.MatchedIffOpen` | lib/ufont/tools/bidi.py:139-141 | A PDI has an initiator if and only if one is open before it |
| `BidiIsolates.MatchInjective` | lib/ufont/tools/bidi.py:136-145 | Two initiators never have the same PDI |
| `BidiIsolates.FindFirstStrong` | lib/ufont/tools/bidi.py:40-54 | The first strong direction with isolates skipped and no further than a separator (P2), none when there is none |
| `BidiIsolates.FirstStrongIs` | lib/ufont/tools/bidi.py:40-54 | A direction is found if and only if it is that of a strong character before the end which is in no isolate opened on the way, and in the same paragraph, with no such character before it |
| `BidiExplicit.NextLevel` | lib/ufont/tools/bidi.py:76 | The least higher level of the direction's parity |
| `BidiExplicit.StepGood` | lib/ufont/tools/bidi.py:72-127 | Every character keeps the stack non-empty, starting at the paragraph level, strictly rising to at most 125, with exactly valid_iso isolate entries |
| `BidiExplicit.AtGood` | lib/ufont/tools/bidi.py:68-127 | So it is after every prefix of every text |
| `BidiExplicit.LevelInRange` | lib/ufont/tools/bidi.py:68-127 | Every explicit level is between the paragraph's and 125 |
| `BidiExplicit.IsolateRestores` | lib/ufont/tools/bidi.py:87-112 | After a matched isolate stack and counters are what they were before its initiator, whatever embeddings, overflows and stray PDFs its content has |
| `BidiExplicit.PairLevels` | lib/ufont/tools/bidi.py:87-112 | An initiator and its PDI get the same explicit level and override |
| `BidiExplicit.ContentLevels` | lib/ufont/tools/bidi.py:87-112 | Inside an entered isolate every level is above the initiator's; inside an overflow isolate every level equals it |
| `BidiExplicit.CountersAreOpen` | lib/ufont/tools/bidi.py:69-112 | While the paragraph lasts the open initiators are as many as valid_iso and over_iso count, the outer valid_iso of them entered and the inner ones overflowed, so a PDI that lowers a counter closes the initiator that the stack matching pairs it with |
| `BidiExplicit.Explicit` | lib/ufont/tools/bidi.py:68-127 | The pass over the text gives every character the level and type that the status before it (after it for a PDI) decides |
| `BidiEmbeddings.EmbeddingContent` | lib/ufont/tools/bidi.py:75-83 | Text directly inside an entered embedding has the least higher level, odd exactly after RLE and RLO, and the type R after RLO, L after LRO and its own class after RLE and LRE |
| `BidiEmbeddings.OverflowContent` | lib/ufont/tools/bidi.py:78-83 | Text directly inside one that is not entered has the level and the override there are outside |
| `BidiEmbeddings.EmbeddingRestores` | lib/ufont/tools/bidi.py:75-119 | The PDF of an embedding restores stack and counters to what they were before it, entered or overflowed, whatever embeddings and matched isolates are in between |
| `BidiEmbeddings.ClimbsTo125` | lib/ufont/tools/bidi.py:76-84 | Of embeddings in alternating directions each goes one level up to exactly level 125, and just those from there on are counted |
| `BidiSequences.PairNext` | lib/ufont/tools/bidi.py:146-162 | After an entered initiator with content its PDI starts a level run at its level; after an overflowed or empty one the text goes on in the same run |
| `BidiSequences.NextInjective` | lib/ufont/tools/bidi.py:146-162 | No character follows two others in the sequences |
| `BidiSequences.EveryKeptInChain` | lib/ufont/tools/bidi.py:146-162 | Every kept character is in the sequence of some head |
| `BidiSequences.OneChainOnly` | lib/ufont/tools/bidi.py:146-162 | At one place of one sequence only |
| `BidiSequences.ChainSteps` | lib/ufont/tools/bidi.py:146-162 | Along a sequence each character is followed by the next kept one of its level, else by its own PDI, and the sequence stays at one level |
| `BidiRuns.LevelRuns` | lib/ufont/tools/bidi.py:129-135 | The runs built are the maximal stretches of kept characters of one level, in order |
| `BidiRuns.JoinRuns` | lib/ufont/tools/bidi.py:156-162 | Joining runs through matched initiators builds exactly the sequence of the first run's head, and takes only runs that a matched PDI starts |
| `BidiRuns.SequencesPartition` | lib/ufont/tools/bidi.py:128-162 | In the list of all sequences every kept character stands at exactly one place of exactly one sequence, each sequence is strictly ascending and at one level, and the sequences are in order of their heads |
| `BidiRuns.Sequences` | lib/ufont/tools/bidi.py:128-162 | The program returns that list |
| `BidiWeak.RuleW1` | lib/ufont/tools/bidi.py:205-213 | In one pass each nonspacing mark gets what its base before all changes calls for, ON after an isolate control, sos without a base |
| `BidiWeak.MarkAfter` | lib/ufont/tools/bidi.py:205-213 | A mark after a character and only marks takes the type of that one, and ON after LRI, RLI, FSI or PDI |
| `BidiWeak.MarkFirst` | lib/ufont/tools/bidi.py:205-213 | A mark with only marks before it takes sos; no other type changes |
| `BidiWeak.RuleW2` | lib/ufont/tools/bidi.py:214-221 | A European number is Arabic exactly when the last strong type before it is AL |
| `BidiWeak.NumberAfter` | lib/ufont/tools/bidi.py:214-221 | A European number becomes an Arabic one just when the last L, R or AL before it is AL |
| `BidiWeak.NumberFirst` | lib/ufont/tools/bidi.py:214-221 | With none before it stays |
| `BidiWeak.RuleW4` | lib/ufont/tools/bidi.py:225-230 | Changing places in order comes to the same as changing all at once: single separators between two numbers of one kind |
| `BidiWeak.SeparatorBetween` | lib/ufont/tools/bidi.py:225-230 | A type becomes another one n if and only if it is a single separator between two n: ES or CS for EN, CS for AN |
| `BidiWeak.RuleW5` | lib/ufont/tools/bidi.py:231-243 | Exactly the stretches of terminators with a European number on a side become European numbers |
| `BidiWeak.TerminatorsBeside` | lib/ufont/tools/bidi.py:231-243 | A whole stretch of ET becomes EN just when an EN is right before or right after it |
| `BidiWeak.RuleW7` | lib/ufont/tools/bidi.py:248-255 | A European number is L exactly when the last direction before it is L |
| `BidiWeak.NumberAfterLeft` | lib/ufont/tools/bidi.py:248-255 | A European number becomes L just when the last L or R before it is L |
| `BidiWeak.NumberFirstLeft` | lib/ufont/tools/bidi.py:248-255 | With none before it, just when sos is L |
| `BidiWeak.WeakRules` | lib/ufont/tools/bidi.py:202-255 | The seven rules one after another |
| `BidiWeak.WeakSettles` | lib/ufont/tools/bidi.py:202-255 | After them only L, R, EN, AN and neutral types are left |
| `BidiNeutral.FindPairs` | lib/ufont/tools/bidi.py:258-274 | The loop finds what reading on from each place finds: a closer pairs with the topmost open opener of its bracket and drops those above it, one without is passed over, and a 64th open opener ends the search |
| `BidiNeutral.PairsNest` | lib/ufont/tools/bidi.py:258-274 | Every pair is an opener and a later closer of one bracket, both still ON, and any two pairs are nested or side by side |
| `BidiNeutral.NestFound` | lib/ufont/tools/bidi.py:258-274 | Up to 63 pairs nested in each other are all found, inside out; with one opener more none is |
| `BidiNeutral.SortedByOpener` | lib/ufont/tools/bidi.py:275 | The pairs sorted are in order of their openers |
| `BidiNeutral.ResolvePair` | lib/ufont/tools/bidi.py:280-304 | A pair takes the embedding direction if that is inside it, else the direction before it if any strong one is inside, and is left alone otherwise; the marks after both brackets go with them |
| `BidiNeutral.PairTakes` | lib/ufont/tools/bidi.py:280-298 | A pair with the embedding direction inside takes it, one with only the other inside what stands before the pair, one with neither stays; numbers count as R |
| `BidiNeutral.FoundBeforeIs` | lib/ufont/tools/bidi.py:291-297 | What stands before is the direction of the last strong character before the opener, sos if there is none |
| `BidiNeutral.SetPairIs` | lib/ufont/tools/bidi.py:299-304 | Exactly the two brackets and the nonspacing marks right after each take the direction |
| `BidiNeutral.ResolveBrackets` | lib/ufont/tools/bidi.py:256-304 | All pairs in order of their openers, each seeing what the ones before made |
| `BidiNeutral.ResolveNeutrals` | lib/ufont/tools/bidi.py:305-318 | Exactly the stretches of neutrals between two equal directions take theirs, all others the embedding direction; both sides of a stretch are known when it is resolved |
| `BidiNeutral.NeutralsTake` | lib/ufont/tools/bidi.py:305-318 | A stretch of neutrals is L between two L, R between two that are R, EN or AN, and else the embedding direction, with sos and eos at the ends; no other type changes |
| `BidiNeutral.ResolvedIsFinal` | lib/ufont/tools/bidi.py:202-320 | Every kept character ends as L, R, EN or AN |
| `BidiNeutral.ResolveSequence` | lib/ufont/tools/bidi.py:202-320 | W1 to N2 on one sequence |
| `BidiNeutral.ImplicitLevel` | lib/ufont/tools/bidi.py:176-185 | The level of a final type is the one least level that is not below the explicit one, odd exactly for R, and above the explicit one for EN and AN; so at most 2 above it, and at most 126 |
| `BidiNeutral.EmbeddingKeepsLevel` | lib/ufont/tools/bidi.py:176-185 | A character that takes the embedding direction keeps its explicit level |
| `BidiResolve.SosIs` | lib/ufont/tools/bidi.py:165-173 | The direction before a sequence is that of the higher of two levels, its own and that of the kept character before it, or the paragraph's |
| `BidiResolve.EosIs` | lib/ufont/tools/bidi.py:168-174 | So is the direction after it, with the paragraph's level after an initiator that ends the sequence or at the end |
| `BidiResolve.ParagraphIs` | lib/ufont/tools/bidi.py:63-64 | An automatic paragraph has level 1 just when its first strong character outside of isolates is R or AL, else 0 |
| `BidiResolve.RtlIs` | lib/ufont/tools/bidi.py:88-92 | An isolate is right to left just for RLI, and for FSI whose first strong character outside of inner isolates is R or AL |
| `BidiResolve.LevelsUnique` | lib/ufont/tools/bidi.py:57-185 | What is said of the levels before L1 determines every one of them |
| `BidiResolve.LevelsInRange` | lib/ufont/tools/bidi.py:57-185 | Before L1 every kept character has a resolved type L, R, EN or AN and the least level that is not below its explicit one, odd exactly for R, and above the explicit one for EN and AN; it lies between the paragraph's and 126 |
| `BidiResolve.LevelsOfSuit` | lib/ufont/tools/bidi.py:176-185 | The levels computed are these least levels at every place of every sequence, and no other levels are |
| `BidiLevels.ResolveLevels` | lib/ufont/tools/bidi.py:68-185 | The levels computed are those of every place of every sequence by its resolved type, each the least one that suits the type |
| `BidiLevels.TrailingLevels` | lib/ufont/tools/bidi.py:186-197 | L1: exactly the separators, and the white space, isolate controls and removed characters that trail before one or before the end, get the paragraph level |
| `BidiLevels.TrailsIs` | lib/ufont/tools/bidi.py:186-197 | A character trails just when from it on only WS, isolate controls and removed characters come before S, B or the end |
| `BidiLevels.L1Keeps` | lib/ufont/tools/bidi.py:186-197 | After L1 separators have the paragraph level, and so have white space, isolate controls and removed characters just where they trail; every other character has the level it had |
| `BidiLevels.Resolve` | lib/ufont/tools/bidi.py:57-199 | The whole algorithm: the paragraph level, the levels before L1, each the least that suits its resolved type, those after, and none for exactly the embedding controls, PDF and BN |
| `BidiNoninterference.SameStatus` | lib/ufont/tools/bidi.py:68-127 | In two texts that differ only inside one matched isolate stack and counters are the same at every place outside |
| `BidiNoninterference.SameChain` | lib/ufont/tools/bidi.py:128-162 | A sequence that starts outside stays outside, and is the same in both texts |
| `BidiNoninterference.Noninterference` | lib/ufont/tools/bidi.py:57-185 | If the isolate is entered in both texts the levels before L1 of everything outside it, of its initiator and of its PDI are the same |
| `BidiNoninterference.IsolateContentIsUnseen` | lib/ufont/tools/bidi.py:57-185 | The same for a given or an automatic paragraph direction, which is then the same too |
| `BidiNoninterference.StillEntered` | lib/ufont/tools/bidi.py:90-101 | Only for an FSI can the content decide whether the isolate is entered |
| `BidiNoninterference.ReplacingChangesNothing` | lib/ufont/tools/bidi.py:57-185 | Replacing the content of a matched, entered isolate by any balanced content without a separator changes no level before L1 outside of it |
| `BidiReorder.StretchIsInterval` | lib/ufont/tools/bidi.py:332-341 | During L2 the characters of one stretch to be reversed are those with no lower level between them in the text |
| `BidiReorder.PassOrders` | lib/ufont/tools/bidi.py:331-341 | Reversing the stretches of one level takes the order for the next higher level to the order for this one |
| `BidiReorder.ReversePass` | lib/ufont/tools/bidi.py:332-341 | The reversals in place put at every place what was at its mirror in its stretch, of indices and of levels |
| `BidiReorder.Reorder` | lib/ufont/tools/bidi.py:323-342 | Each kept index once; of two of them the earlier is on the left exactly when the least level over the kept characters from one to the other is even |
| `BrotliBits.Bits.constructor` | lib/ufont/tools/brotlimodel.py:49-50 | The reader starts at bit 0 of the input |
| `BrotliBits.Bits.Read` | lib/ufont/tools/brotlimodel.py:52-61 | n bits, the first lowest, as a number; it fails exactly when fewer are left |
| `BrotliBits.Bits.Align` | lib/ufont/tools/brotlimodel.py:63-67 | On to the next whole byte; it fails exactly when a bit skipped is not 0 |
| `BrotliWriter.BytesBack` | lib/ufont/tools/brotlimodel.py:52-61 | Bits put into bytes with the first of each byte lowest are the bits that are read |
| `BrotliWriter.LowBack` | lib/ufont/tools/brotlimodel.py:52-61 | A number put down with its lowest bit first is read back as that number |
| `BrotliWriter.HighBack` | lib/ufont/tools/brotlimodel.py:82-94 | A code put down with its highest bit first stands there as that code |
| `BrotliCode.KraftIsUsed` | lib/ufont/tools/brotlimodel.py:73-80 | The Kraft sum of the symbols is the code space that the counts of the lengths take |
| `BrotliCode.CanonFits` | lib/ufont/tools/brotlimodel.py:73-80 | With a Kraft sum of at most 1 every canonical code fits its length |
| `BrotliCode.OneCodeStands` | lib/ufont/tools/brotlimodel.py:82-94 | No two symbols' codes stand at one place: the code is prefix-free |
| `BrotliCode.MakeCode` | lib/ufont/tools/brotlimodel.py:73-80 | Counts and sorted symbols represent the canonical code of the lengths |
| `BrotliCode.ReadSymbol` | lib/ufont/tools/brotlimodel.py:82-94 | Reading returns a symbol if and only if its canonical code stands there, after exactly its length in bits; with a single symbol or a Kraft sum of 1 it fails only within 15 bits of the end of the input |
| `BrotliLengths.ReadSmall` | lib/ufont/tools/brotlimodel.py:122-129 | The nested tests read exactly the canonical code of the fixed lengths for 0 to 5 |
| `BrotliLengths.ReadLengthCode` | lib/ufont/tools/brotlimodel.py:117-140 | The code of code lengths: it is returned exactly when one symbol is used or 32 units are filled, and is then that symbol or the canonical code of the lengths put in their order; reading stops when no space is left |
| `BrotliLengths.MeaningStep` | lib/ufont/tools/brotlimodel.py:145-170 | Repeats in a row that together say one count can be taken one at a time, each adding what it makes the count go up by |
| `BrotliLengths.CountHasRepeats` | lib/ufont/tools/brotlimodel.py:154-163 | Every count from 3 on is said by repeats in a row, with two extra bits each for the last length and three each for zeros ... |
| `BrotliLengths.CountHasOne` | lib/ufont/tools/brotlimodel.py:154-163 | ... and in one way only |
| `BrotliLengths.AddRepeat` | lib/ufont/tools/brotlimodel.py:154-170 | One repeat keeps the lengths, the running count and the space left in step with what all tokens read so far say |
| `BrotliLengths.ReadLengths` | lib/ufont/tools/brotlimodel.py:141-173 | The lengths returned are those the tokens say, padded with 0; it succeeds exactly when they fill the code space over no more than the alphabet |
| `BrotliHeader.SymbolBitsFit` | lib/ufont/tools/brotlimodel.py:101 | The bits of a symbol in a simple code suffice for every symbol, and one bit less does not |
| `BrotliHeader.ReadSimple` | lib/ufont/tools/brotlimodel.py:100-116 | A simple code gives its one to four distinct symbols the lengths of its shape and fails exactly when a symbol is too large or twice there, or the input ends |
| `BrotliHeader.ReadCode` | lib/ufont/tools/brotlimodel.py:97-173 | Whatever the bits are, a code returned is of one symbol or has a Kraft sum of exactly 1, and is what the bits describe |
| `BrotliHeader.WrittenOnce` | lib/ufont/tools/brotlimodel.py:97-173 | The bits at a place describe one code that ends at one place, or none |
| `BrotliHeader.WrittenComplete` | lib/ufont/tools/brotlimodel.py:97-173 | Every code that bits can describe is complete and ends in the input |
| `BrotliMoveToFront.TablePermutes` | lib/ufont/tools/brotlimodel.py:206-213 | Over indices below n the table stays a permutation whose first n places hold 0 to n - 1 |
| `BrotliMoveToFront.UndoneBelow` | lib/ufont/tools/brotlimodel.py:206-213 | So only values below n come out |
| `BrotliMoveToFront.UndoForward` | lib/ufont/tools/brotlimodel.py:206-213 | The loop undoes forward move-to-front on every byte sequence |
| `BrotliMoveToFront.ForwardUndone` | lib/ufont/tools/brotlimodel.py:206-213 | And no other indices stand for these bytes |
| `BrotliMoveToFront.Undo` | lib/ufont/tools/brotlimodel.py:206-213 | The loop over the mutable table computes the inverse transform |
| `BrotliContext.ReadEntries` | lib/ufont/tools/brotlimodel.py:194-205 | Runs of zeros and entries until there are as many as wanted, all below ntrees; it fails exactly when a run is too long or the input ends |
| `BrotliContext.RunLengths` | lib/ufont/tools/brotlimodel.py:199-203 | Runs of k bits are zeros only, 2^k of them and as many more as the extra bits say, so less than those of more bits |
| `BrotliContext.MapBelow` | lib/ufont/tools/brotlimodel.py:189-214 | Every entry of a context map is below ntrees |
| `BrotliContext.MapOnce` | lib/ufont/tools/brotlimodel.py:189-214 | The bits at a place are one map that ends at one place |
| `BrotliContext.ReadContextMap` | lib/ufont/tools/brotlimodel.py:189-214 | The map that the bits are, every entry below ntrees; or there is none and the reason is stated |
| `BrotliDistance.EncodeDistance` | lib/ufont/tools/brotlimodel.py:383-391 | For every npostfix and ndirect every distance has a code with extra bits that stands for it |
| `BrotliDistance.DistanceEncode` | lib/ufont/tools/brotlimodel.py:383-391 | Every code with its extra bits is the code of its distance: no two give one distance |
| `BrotliDistance.InAlphabet` | lib/ufont/tools/brotlimodel.py:345-346 | The alphabet of a meta-block reaches exactly the distances up to ndirect + (2^26 - 4) * 2^npostfix, so without gaps |
| `BrotliCopy.CopiedAt` | lib/ufont/tools/brotlimodel.py:408-414 | A copy repeats the last d bytes from the first of them as often as it takes, and leaves what was there |
| `BrotliCopy.PairHasCommand` | lib/ufont/tools/brotlimodel.py:350-353 | Of the commands with a distance code every pair of an insert and a copy code has one ... |
| `BrotliCopy.CommandIsOfPair` | lib/ufont/tools/brotlimodel.py:350-353 | ... and only one |
| `BrotliCopy.ImplicitPair` | lib/ufont/tools/brotlimodel.py:350-351 | Every pair of an insert code below 8 and a copy code below 16 has a command that uses the last distance again |
| `BrotliCopy.LengthsAreContiguous` | lib/ufont/tools/brotlimodel.py:26-29 | Insert lengths from 0 and copy lengths from 2 on follow on each other without gap or overlap; the last codes have 24 extra bits |
| `BrotliBlocks.ReadCount` | lib/ufont/tools/brotlimodel.py:176-181 | The number of block types or codes, 1 to 256 |
| `BrotliBlocks.CountsAreContiguous` | lib/ufont/tools/brotlimodel.py:184-186 | Block counts follow on each other without gap or overlap from 1 on, the last with 24 extra bits |
| `BrotliBlocks.Category.Init` | lib/ufont/tools/brotlimodel.py:218-224 | The category at the start of a meta-block as the input says, with complete codes |
| `BrotliBlocks.Category.Take` | lib/ufont/tools/brotlimodel.py:226-235 | One symbol taken, after a block switch when none are left; it fails exactly when the input is damaged there or there is but one type |
| `BrotliBlocks.NextSound` | lib/ufont/tools/brotlimodel.py:226-235 | The block type stays below the number of types, whatever the type code says; and taking a symbol uses up 2 bits or one of the block |
| `BrotliBlocks.SwitchedBack` | lib/ufont/tools/brotlimodel.py:229-233 | Code 0 right after any switch goes back to the type before it, and code t + 2 to type t |
| `BrotliBlocks.AllInTurn` | lib/ufont/tools/brotlimodel.py:229-233 | Code 1 over and over goes through all types in turn and starts again after as many steps as there are types |
| `BrotliCommands.OpensWith` | lib/ufont/tools/brotlimodel.py:349-353 | A command of an insert and a copy code opens with the lengths that the codes and the extra bits after it stand for, those of the insert code first |
| `BrotliCommands.LiteralsGood` | lib/ufont/tools/brotlimodel.py:354-369 | The literals of a command add as many bytes as it says, or as many as the meta-block has left |
| `BrotliCommands.ContextFixed` | lib/ufont/tools/brotlimodel.py:359-366 | The context is the one number below 64 that differs from the last byte by a multiple of 64, or has the last byte among the four from 4 times it on, or is what the table has for the last two bytes, or has their classes as its high and its low three bits |
| `BrotliCommands.LiteralByContext` | lib/ufont/tools/brotlimodel.py:355-367 | A literal is read with exactly the code that the map has for the block type, after a switch when the block is out, and for the context of the last two bytes of the output; it is the one byte that is added |
| `BrotliCommands.ShortNames` | lib/ufont/tools/brotlimodel.py:378-380 | Short codes 0 to 3 are the last four distances, the last first; 4 to 9 the last one less or more 1, 2 and 3, 10 to 15 the last but one in the same way |
| `BrotliStream.FirstDistances` | lib/ufont/tools/brotlimodel.py:290 | At the start of a stream the last four distances are 4, 11, 15 and 16 |
| `BrotliCommands.DistanceByContext` | lib/ufont/tools/brotlimodel.py:376-377 | The code of a distance is the one that the map has for the block type and for a copy of 2, 3, 4 or more bytes |
| `BrotliCommands.LastAgain` | lib/ufont/tools/brotlimodel.py:372-373 | The first 128 commands use the last distance again and read nothing for it |
| `BrotliCommands.WordsFill` | lib/ufont/tools/brotlimodel.py:403-404 | The words of each length start where the shorter ones end, and all of them fill the dictionary |
| `BrotliCommands.WordFits` | lib/ufont/tools/brotlimodel.py:397-404 | Every word that a distance can mean lies within the words of its length |
| `BrotliCommands.WordMeant` | lib/ufont/tools/brotlimodel.py:397-404 | Every word under every transform is meant by the number beyond the window that has the transform above the word's bits |
| `BrotliCommands.NoWordMeant` | lib/ufont/tools/brotlimodel.py:395-402 | No word is meant exactly when the length is none from 4 to 24 or the number is 121 times the words or more |
| `BrotliCommands.CopyReadsWindow` | lib/ufont/tools/brotlimodel.py:392-414 | A distance within the output and the window is a copy, which fails exactly when it goes past the meta-block's end; it reads bytes already written, over again when it is longer than its distance, adds exactly its length, and the distance is remembered unless its code is 0 |
| `BrotliCommands.WordBeyond` | lib/ufont/tools/brotlimodel.py:392-407 | Any other distance is the dictionary word numbered from the first distance out of reach, added as a whole or a failure, and not remembered |
| `BrotliCommands.CommandGood` | lib/ufont/tools/brotlimodel.py:347-414 | A command keeps codes, categories and distances sound and never goes past the meta-block's end; it uses up bits, or else one of the command block, even when it adds no output |
| `BrotliCommands.CommandsFill` | lib/ufont/tools/brotlimodel.py:347-414 | The command loop ends on every input, and when it succeeds the meta-block has exactly its length |
| `BrotliCommands.RunCommand` | lib/ufont/tools/brotlimodel.py:348-414 | A command with literals, distance ring, copy and dictionary word does what the function of the input says, or fails where that is damaged |
| `BrotliCommands.RunCommands` | lib/ufont/tools/brotlimodel.py:347-414 | So does the loop |
| `BrotliStream.HeadFits` | lib/ufont/tools/brotlimodel.py:334-346 | Every context map entry is one of its codes and every code is complete, so no lookup of the commands is out of range |
| `BrotliStream.MetaBlockAdds` | lib/ufont/tools/brotlimodel.py:289-414 | A meta-block that succeeds adds exactly the bytes it announces, leaves those before, keeps to the limit, and takes up input |
| `BrotliStream.MetaBlocksAdd` | lib/ufont/tools/brotlimodel.py:289-416 | So do all meta-blocks together, and they come to an end |
| `BrotliStream.OutputAnnounced` | lib/ufont/tools/brotlimodel.py:274-421 | Whenever decoding succeeds the output has exactly the bytes all meta-blocks announce and is not longer than the limit; windows are 2^10 to 2^24 |
| `BrotliStream.Decompress` | lib/ufont/tools/brotlimodel.py:267-421 | The decoder ends on every input and returns the output that the functions of the input describe, or nothing exactly when they say the stream is damaged |
| `BrotliStored.StoredDecodes` | lib/ufont/tools/brotlimodel.py:274-334 | Every text within the limit, of any length, has a stream of a window, metadata, uncompressed meta-blocks and an empty last one whose output is that text |
| `BrotliCoded.FlatDescribed` | lib/ufont/tools/brotlimodel.py:117-173 | The 38 bits of a code with length 8 for every byte describe the code in which each byte is itself |
| `BrotliCoded.CountBack` | lib/ufont/tools/brotlimodel.py:176-181 | Every number of block types or codes from 1 to 256 has bits that are read as it |
| `BrotliCoded.CodedDecodes` | lib/ufont/tools/brotlimodel.py:274-421 | Any literals with any copy from within them, up to 65536 bytes, have a compressed stream - header, code lengths, codes, one command and its distance - whose output is the literals with the copy after them |
| `BrotliStored.WindowIs` | lib/ufont/tools/brotlimodel.py:277-287 | Each window size from 10 to 24 has one code of one to seven bits, which reading finds, and all others are damaged |
| `BufferClusters.MergedMonotone` | lib/ufont/tools/shapemodel.py:372-407 | A merge keeps cluster values monotone in either direction |
| `BufferClusters.SeparatesWhenCut` | lib/ufont/tools/shapemodel.py:372-390 | Along monotone values a merge separates two entries that shared one if and only if looking back stops inside a run whose value changes |
| `BufferClusters.NeverCutsFromStart` | lib/ufont/tools/shapemodel.py:392-407 | Looking back without a bound never stops inside a run |
| `BufferClusters.CutExample` | lib/ufont/tools/shapemodel.py:372-390 | Values 5, 5, 3 merged from the second on with the cursor there become 5, 3, 3: the first two come apart |
| `BufferClusters.MergedLeast` | lib/ufont/tools/shapemodel.py:372-407 | The least value of the text stays what it was |
| `BufferClusters.KeptFacts` | lib/ufont/tools/shapemodel.py:320-337 | Before a glyph is deleted its cluster is passed on so that values stay monotone, none that stay are separated, and the least value stays at a glyph that stays |
| `BufferClusters.DeletedFacts` | lib/ufont/tools/shapemodel.py:320-337 | So the text without the glyph is monotone with the same least value |
| `BufferClusters.PassedOverShares` | lib/ufont/tools/shapemodel.py:335-337 | Without output the deleted glyph and the next one get the lesser of their values, with all that follow with the next one's value; the last one changes nothing |
| `BufferSort.SortIsStable` | lib/ufont/tools/shapemodel.py:409-419 | The insertion sort leaves what is outside of the range, orders the range by key, and keeps the order of equal keys |
| `StableSort.StableSortUnique` | lib/ufont/tools/shapemodel.py:409-419 | Order and the order of equal keys determine the result |
| `BufferSort.SortValues` | lib/ufont/tools/shapemodel.py:409-419 | The merges of the sort keep values monotone, and with output on separate none that shared one |
| `BufferSortCuts.SortSeparates` | lib/ufont/tools/shapemodel.py:409-419 | From the cursor on, the sort separates glyphs that shared a cluster if and only if there is no output before the cursor to look back into, the cursor stands inside the run of values that the range starts in, the run ends before a smaller value, and some glyph behind the run has a smaller key than one of the range inside it |
| `Buffers.Buffer.constructor` | lib/ufont/tools/shapemodel.py:267-278 | A new buffer holds the glyphs, without output, the cursor at the start |
| `Buffers.Buffer.ClearOutput` | lib/ufont/tools/shapemodel.py:280-282 | Output is on and empty; the text is what is from the cursor on |
| `Buffers.Buffer.Sync` | lib/ufont/tools/shapemodel.py:284-289 | The text stays the same, now all of it input |
| `Buffers.Buffer.NextGlyph` | lib/ufont/tools/shapemodel.py:294-297 | The cursor goes on by one and the text stays the same |
| `Buffers.Buffer.MoveTo` | lib/ufont/tools/shapemodel.py:351-369 | The cursor goes to any place of the text, forward or back, and the text stays the same |
| `Buffers.Buffer.MergeClusters` | lib/ufont/tools/shapemodel.py:372-390 | Along the text, across both parts, the merged range and its runs get the least value; nothing else changes |
| `Buffers.Buffer.MergeOutClusters` | lib/ufont/tools/shapemodel.py:392-407 | The same for a range of the output, going on into the input |
| `Buffers.Buffer.Sort` | lib/ufont/tools/shapemodel.py:409-419 | The glyphs of the range as the stable sort has them, the cluster values as its merges leave them |
| `Buffers.Buffer.DeleteGlyph` | lib/ufont/tools/shapemodel.py:320-337 | With output the text without the glyph at the cursor, with the cluster values passed on; without output the glyph stays and is merged with the next one unless they share a cluster; the cursor goes on by one |
| `Quicksort.SwapRuns` | lib/ufont/tools/shapemodel.py:736-738 | n entries change places with n others |
| `Quicksort.SwapBlocks` | lib/ufont/tools/shapemodel.py:740-745 | Two runs side by side change places as wholes, by swapping only as many as the shorter has |
| `Quicksort.InsertionSort` | lib/ufont/tools/shapemodel.py:753-759 | The range is in order, has the same entries, and entries with one key are as they were |
| `Quicksort.Median` | lib/ufont/tools/shapemodel.py:760-767 | The key is the middle one of three |
| `Quicksort.Partition` | lib/ufont/tools/shapemodel.py:760-799 | Lesser entries first, greater ones last, those equal to the pivot between them, all from the range, with at least one equal |
| `Quicksort.SortRange` | lib/ufont/tools/shapemodel.py:751-801 | The range is in order, with the same entries, and nothing outside changes |
| `Quicksort.Sort` | lib/ufont/tools/shapemodel.py:732-803 | For every list: in order by key and a permutation; with less than 10 entries those with one key keep their order |
| `LookupMerge.CombinesMore` | lib/ufont/tools/shapemodel.py:718-724 | One request more of a sorted list keeps the merged lookups right |
| `LookupMerge.AnyOrder` | lib/ufont/tools/shapemodel.py:715-724 | Whatever order the requests come in, the same lookups combine them |
| `LookupMerge.MergeStage` | lib/ufont/tools/shapemodel.py:715-725 | The stage's lookups are strictly increasing by index; each index asked for is there, with a mask that tests exactly the bits that some request tests and joiner flags that are set exactly when all requests set them; the random and per-syllable flags are those of some request, of the first one when there are less than 10; earlier stages are untouched |
| `LookupPlan.Collect` | lib/ufont/tools/shapemodel.py:704-714 | A stage's requests are those of the required feature for all glyphs and then those of the stage's features in order, without lookups that the font does not have; each has the mask and all four flags of the feature it is of |
| `LookupPlan.RequestIs` | lib/ufont/tools/shapemodel.py:704-714 | Every request, field by field, is what the required feature or some feature of the stage that uses the lookup asks; the required one's come first |
| `LookupPlan.RequestFlags` | lib/ufont/tools/shapemodel.py:704-724 | Whose random and per-syllable flags a lookup can get, and whose the first request for it brings: the required feature's before those of the features in list order |
| `LookupPlan.CombinedPlans` | lib/ufont/tools/shapemodel.py:704-724 | What combines these requests has exactly the lookups that features of the stage use, each for the glyphs that some of these features apply to, skipping joiners exactly when all of them let it, and random and per syllable as some of them says: with less than 10 requests the required feature if it uses the lookup, else the first in list order |
| `LookupPlan.Compile` | lib/ufont/tools/shapemodel.py:698-728 | So for every stage one after another, and each stage's end is recorded |
| `Propagate.AddAdvances` | lib/ufont/tools/shapemodel.py:2456-2463 | Only one glyph's offsets change, by the advances of the range |
| `Propagate.FinalAttached` | lib/ufont/tools/shapemodel.py:2450-2463 | The one final place of an attached glyph: a mark after its parent is drawn, from left to right where the advances of all glyphs before it lead and from right to left those after it, at its own offsets from where the parent is drawn; a mark before its parent moves by the parent's offsets, a cursive glyph only vertically |
| `Propagate.MovesWith` | lib/ufont/tools/shapemodel.py:2450-2463 | A glyph whose parent is settled moves to its final place, the one that `Propagate.FinalAttached` is about |
| `Propagate.Settle` | lib/ufont/tools/shapemodel.py:2442-2463 | It ends for any chains, at most clears chains and changes offsets, and in a forest puts the glyph in its final place, and every other one that it changes in its own |
| `Propagate.SettleAll` | lib/ufont/tools/shapemodel.py:2103-2105 | In a forest at most 64 deep every glyph visited ends at its final place, whatever order glyphs are visited in; where its parent is visited too, attached to the place the parent has in the result, and unmoved without a parent |
| `Stretch.CoversWord` | lib/ufont/tools/arabic.py:234-245 | When tiles that repeat are too narrow for the word they come to cover it, with the least number of copies; when that had to be squeezed they do so with less than one unit left over for each extra copy, and no width is left to centre |
| `Stretch.NothingToCover` | lib/ufont/tools/arabic.py:234-245 | A word no wider than the tiles leaves them as they are; repeated tiles no wider than nothing get one copy more when the word is wider |
| `Stretch.CopiesBeside` | lib/ufont/tools/arabic.py:251-268 | Each copy of a tile stands where the copy before it ends, less the overlap exactly after the first, to the right or to the left by direction; advances are 0 |
| `Stretch.TileStands` | lib/ufont/tools/arabic.py:251-268 | The copies of each tile of a run stand together in its place, and start where all the tiles after it have reached to |
| `Stretch.CutLength` | lib/ufont/tools/arabic.py:246-268 | The glyphs that the cut puts down are exactly the glyphs there were and those the measure pass counted |
| `Stretch.RunReachIsCovered` | lib/ufont/tools/arabic.py:249-268 | The tiles put down reach as far as the plan of the run says |
| `Stretch.RunCoversWord` | lib/ufont/tools/arabic.py:217-268 | So the tiles of a run cover the rest of its word |
| `Stretch.MeasureRun` | lib/ufont/tools/arabic.py:217-245 | A run's start, plan and number of repeated tiles depend only on the glyphs up to its end, so both passes find the same |
| `Stretch.Measure` | lib/ufont/tools/arabic.py:203-247 | The first pass counts all extra copies |
| `Stretch.CutTile` | lib/ufont/tools/arabic.py:251-268 | The copies of one tile are put down side by side from the last place, and what is before the tile is not touched |
| `Stretch.CutAll` | lib/ufont/tools/arabic.py:203-268 | Although tile advances are zeroed on the way the second pass fills each of the count + extra places exactly once, with the text cut as specified |
| `Stretch.Postprocess` | lib/ufont/tools/arabic.py:193-275 | The text stretched in visual order for both directions, and unchanged when it would become too long |
| `Trie.Number` | lib/ufont/tools/ucd_table.py:99-102 | An entry gets the number it has, or the next one; entries before keep theirs |
| `Trie.Build` | lib/ufont/tools/ucd_table.py:91-107 | No block and no chunk is kept twice, every code point is covered, and all numbers fit 16 bits |
| `Trie.LookupAgrees` | lib/ufont/tools/ucd_table.py:279-304 | For every code point the shifts and masks stay inside the three tables and find the value the tables were built from |
| `UicBody.FractionBits` | lib/ugfx/tools/uic.py:39-52 | The largest number up to 14 with which every magnitude fits, 0 when no positive number is |
| `UicBody.RoundIsNearest` | lib/ugfx/tools/uic.py:55-56 | The rounded number is the one whole number at most one half away that is even when it is one half away |
| `UicBody.QuantiseNearest` | lib/ugfx/tools/uic.py:55-59 | A coordinate is written as q with f bits if and only if q fits 16 bits and is nearest to v * 2^f, even of two that are as near |
| `UicBody.QuantisedNearest` | lib/ugfx/tools/uic.py:66-77 | A command is written as d if and only if d has the same kind, slot, rule, join, cap and alpha and, one by one, the numbers nearest to its scaled coordinates |
| `UicBody.FewerFit` | lib/ugfx/tools/uic.py:39-52 | What fits with some number of bits fits with fewer |
| `UicBody.FitsUnlessLowest` | lib/ugfx/tools/uic.py:50-59 | Every magnitude fits if and only if every coordinate can be written and none becomes -32768 |
| `UicBody.LargestWritable` | lib/ugfx/tools/uic.py:39-59 | The number chosen is the largest with which everything can be written if and only if no number from 1 to 14 lets everything be written and something become -32768 |
| `UicBody.LowestIsPassedOver` | lib/ugfx/tools/uic.py:39-59 | One point at -2 can be written with 14 bits and gets 13 |
| `UicBody.ChosenWrites` | lib/ugfx/tools/uic.py:39-59 | Whenever some number of bits up to 14 lets everything be written the one chosen does |
| `UicWalk.WriteCommand` | lib/ugfx/tools/uic.py:66-77 | A command is written exactly when its coordinates fit and are as many as its kind has, and then with the whole numbers nearest to its scaled coordinates and everything else unchanged |
| `UicWalk.FirstByte` | lib/ugfx/tools/uic.py:24-27 | The byte each kind of command starts with, and how many bytes it has |
| `UicWalk.ItemOfEncoded` | lib/ugfx/tools/uic.py:113-134 | The walk finds a written command again and goes on right after it |
| `UicWalk.UnknownIs` | lib/ugfx/tools/uic.py:114-134 | Exactly the bytes that start no command and are not the end are passed over, each by itself |
| `UicWalk.Walk` | lib/ugfx/tools/uic.py:113-134 | The walk ends and lists the items up to the end mark, unknown bytes included |
| `UicWalk.WalkRecovers` | lib/ugfx/tools/uic.py:62-134 | The walk over written commands recovers exactly these at quantised coordinates |
| `UicPack.Body` | lib/ugfx/tools/uic.py:62-78 | A body is written exactly when the head fits its fields and everything can be quantised, with the fraction bits given or chosen; walking through it shows the view box, the fraction bits, the slots, and every command with the whole numbers nearest to its scaled coordinates |
| `UicPack.BodyRecovered` | lib/ugfx/tools/uic.py:101-135 | The walk over a body starts after the head and slots and recovers the fraction bits and all commands |
| `UicPack.BodyShows` | lib/ugfx/tools/uic.py:62-135 | So it is for every body: the walk shows all of the icon, nothing else, and then the end |
| `UicPack.WritesWhenAnyDoes` | lib/ugfx/tools/uic.py:39-78 | With chosen fraction bits the commands are written whenever any number of bits up to 14 lets them be |
| `UicNames.DecodedUtf8` | lib/ugfx/tools/uic.py:86 | Text without lone surrogates is decoded again from its UTF-8 bytes |
| `UicNames.Utf8Decoded` | lib/ugfx/tools/uic_sheet.py:29 | Bytes that can be decoded are the UTF-8 bytes of the text, so no two byte strings say one text |
| `UicPack.SortFacts` | lib/ugfx/tools/uic.py:83 | The icons are in order of their names' bytes and then design size, and all there |
| `UicPack.SortedByName` | lib/ugfx/tools/uic.py:83 | Of two icons in the pack the first has the name whose bytes come first, or the same name and no larger size |
| `UicPack.NameLessIs` | lib/ugfx/tools/uic.py:83 | A name comes before another just when it is a beginning of it or has the lower byte where they first differ |
| `UicPack.SortStable` | lib/ugfx/tools/uic.py:83 | Icons of one name and size stay in the order they were given in |
| `UicPack.EntryOnce` | lib/ugfx/tools/uic.py:85-90 | An icon has one entry only |
| `UicPack.NoEntryIsNone` | lib/ugfx/tools/uic.py:85-90 | An icon whose name cannot be encoded or whose body cannot be written has none |
| `UicPack.UnpackPacked` | lib/ugfx/tools/uic_sheet.py:23-30 | Reading a pack gives back every entry in order: the bytes of its name, its size and exactly the body |
| `UicPack.BodiesAligned` | lib/ugfx/tools/uic.py:90-94 | Every body of a pack starts at a multiple of four bytes from its start, with less than four between |
| `UicPack.Pack` | lib/ugfx/tools/uic.py:81-98 | A pack is written if and only if every icon has an entry - its name encoded, its body given ready-made or written - and all numbers fit their fields; reading it back gives all icons in order by name, size and body, and every body not ready-made shows all commands of its icon at the nearest whole numbers |
| `UicPack.ReadPack` | lib/ugfx/tools/uic_sheet.py:23-30 | The reader follows each row to its name, which it decodes, and its body; it fails exactly when the header or a row is cut off or a name is not UTF-8, and what a row points to past the end is shorter or empty |

## Left out

- Texts of several paragraphs: `resolve` does not reset its stack at a separator, so its text is one paragraph; `BidiExplicit.CountersAreOpen` is stated up to the first separator, the other theorems hold with separators anywhere.
- Paragraph directions other than 0, 1 and 2 (lib/ufont/tools/bidi.py:63-66): the level is used as given.
- Bidirectional classes, bracket pairs and their canonical equivalents: parameters, as the generated tables are not part of this model.
- `BidiIsolates.MatchAll`: goes over all characters where the original goes over the kept ones; those it adds are neither initiators nor PDIs nor separators.
- Python's `sorted` on categories and pairs and its set and dictionary iteration order: functions that sort, and sets; the results do not depend on it.
- One dotted circle for each broken syllable (lib/ufont/tools/syllabic.py:36-77): serials wrap after 15, so it does not hold for long texts.
- Brotli's dictionary bytes, the transforms of words (lib/ufont/tools/brotlimodel.py:238-264) and the tables of the UTF8 and signed literal contexts: parameters (`BrotliCommands.Fixed`); a transformed word may be empty.
- Which error a damaged Brotli stream raises: all are one failure.
- `Buffers.Buffer.MergeClusters`: requires the range to be at or after the cursor while output is on, as all callers have it; before the cursor the input holds records that the output shares, and writing one through the other is not modelled.
- `BufferSortCuts.SortSeparates`: for sorts from the cursor on; a sort of glyphs before the cursor without output merges from several places that cannot look back, and no caller has one, as the cursor is at the start then.
- `Buffers.Buffer.Sort`: the key does not depend on the cluster; the original's keys are masks and classes.
- Glyph records as objects shared between lists: records are values here, so writing one through another list is not modelled; masks, flags and unsafe-to-break marks are not part of the model.
- `LookupMerge.MergeStage`: with 10 requests or more the random and per-syllable flags come from some request for the lookup; which one is left to the order in which the partition, which is not stable, leaves equal entries.
- `LookupPlan.Compile`: merging the shaper's feature requests, allotting their mask bits and finding features in the font (lib/ufont/tools/shapemodel.py:640-697); the features with their masks and the lookups of each are parameters, and so are the pause functions between stages.
- Cursive chains across several lookups may have cycles: the sum of `Propagate.SettleAll` is stated for forests, and for other chains that it ends and what it may change.
- `Stretch.Postprocess`: vertical offsets, widths of glyphs in the font and which characters make a word are part of the glyph's kind and width here.
- `Trie.Build`: the emitted assembly text and its rows; the lookup is modelled as the shifts, masks and loads that are emitted.
- `UicPack.Body`: the view box is 16 bytes; rounding its four numbers to single precision is not modelled.
- Slots, joins, caps, rules and opacity of icon commands outside their field widths: typed to the width, where the original fails on writing.
- Fonts, generated character data, script shapers, GSUB and GPOS matching, CFF and variation arithmetic: they rest on data and libraries that are not part of this model.
