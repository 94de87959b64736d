# A verified model of the PaoloBrito01/Python teaching programs

This project models, in Dafny, the logic at the heart of seven small
programs of the repository and proves what each promises.

- **The finite-automaton simulator** (LFA/SimuladorAutomatos/main.py).
  - `Automato` keeps a set of states and a transition relation from
    `(origin, symbol)` to a set of destinations. It also keeps the
    configuration `estados_atuais`, the final states, and `estado_atual`,
    which holds the name of the *initial* state.
  - `SimulatorApp` starts a simulation from three text fields. Its timer
    step `proximo_passo` reads one symbol per tick.
  - The project file has five sections. `salvar_projeto` writes it as
    lines and `carregar_projeto` reads those lines back.
  - Modules: `Automaton` (the class `Automato`), `ProjectFile` (the file
    format as functions, with the round trip), `Simulator` (the class
    `SimulatorApp`), and `Ordering` for Python's `sorted`.
- **String search** (LFA/KMP/busca_v2.py), module `Search`. The window
  search and Knuth–Morris–Pratt both return every occurrence in increasing
  order, and each counts its comparisons.
- **Grammar text** (LFA/GLC/glc.py), module `Grammar`. It covers
  `parse_grammar`, `format_grammar_as_text`, the txt save and the
  deterministic L-system rewriter.
- **Degree statistics** (MTD/run.py), module `Degrees`. It covers the
  edge list, `totalArestas`, `grauMaximo`, `grauMinimo` and `completo`.
- **Pixel filters** (VC/AplicacaoFiltros/run.py), module `Filters`. It
  covers the six filters over a two-dimensional pixel array, and the 3×3
  mosaic layout.
- **`ensure_odd`** (VC/Ruido/main.py), module `Kernel`, and the kernel
  sizes derived from it.
- **The flood alert decision** (AI/SimpleClassifier/app.py), module
  `FloodAlert`. It covers the label fallback, the label clean-up and the
  choice of the alert box.

The Python `str` operations these programs use (`strip`, `split`,
`splitlines`, `join`, `lower`, `replace`, `rstrip`) are written out in
module `Text`. The classifier call, file I/O, the GUI and the timers are
not modelled. Their results reach the model as parameters, such as the
lines `readlines` returns or the pair the classifier returns.

Where the automaton code and the general design of an automaton engine
differ, the model follows the code:
- `adicionar_transicao` never rejects an unknown state; it adds both ends
  to the states.
- The loader checks no reference and ignores the `#alphabet` section.
- The loader keeps only the last destination of an `(origin, symbol)`
  key.
- The loader merges the loaded transitions into those already present
  instead of replacing them.
- A stuck step ends the run with rejection and keeps the old
  configuration.
- An empty input string never starts a run, so no verdict is given for it.
- Saving sorts the keys but writes the destinations of a key in the
  order of the set.

Because the loader keeps one destination per key, the save/load round trip
is proved for deterministic automata only (`ProjectFile.RoundTrip`).

## Model

| member | source | states |
|---|---|---|
| Automaton.AddTransition | LFA/SimuladorAutomatos/main.py:14-20 | the relation gains the key `(o, s)`; that key's destination set gains `d` and loses nothing; every other key keeps its destinations |
| Automaton.AddTransitionIdempotent | LFA/SimuladorAutomatos/main.py:14-20 | repeating the same `adicionar_transicao` changes nothing |
| Automaton.AddTransitionKeepsEndpoints | LFA/SimuladorAutomatos/main.py:14-20 | the endpoints of the relation grow by exactly the origin and the destination |
| Automaton.SuccessorsMember | LFA/SimuladorAutomatos/main.py:30-36 | a state is in the next configuration iff some current state has it as a destination on the symbol |
| Automaton.SuccessorsUnion | LFA/SimuladorAutomatos/main.py:30-36 | the step distributes over a union of configurations |
| Automaton.SuccessorsEmpty | LFA/SimuladorAutomatos/main.py:30-36 | the empty configuration steps to the empty set |
| Automaton.SuccessorsUnknownSymbol | LFA/SimuladorAutomatos/main.py:34-35 | a symbol in no transition key gives the empty set |
| Automaton.SuccessorsSingleton | LFA/SimuladorAutomatos/main.py:30-36 | from one state the step gives its whole destination set, not one chosen destination |
| Automaton.RunAppend | LFA/SimuladorAutomatos/main.py:155-169 | reading `u + v` is reading `u` and then `v`, and a run stuck in `u` stays stuck |
| Automaton.Automato.constructor | LFA/SimuladorAutomatos/main.py:8-12 | states, transitions, configuration and final states start empty; no initial state is set |
| Automaton.Automato.AdicionarTransicao | LFA/SimuladorAutomatos/main.py:14-20 | both ends join the states; the relation becomes `AddTransition` of the old one; the other fields are unchanged; every key keeps a destination and every endpoint stays a state |
| Automaton.Automato.DefinirEstadoInicial | LFA/SimuladorAutomatos/main.py:22-24 | `estado_atual` becomes the given name and nothing else changes |
| Automaton.Automato.DefinirEstadosFinais | LFA/SimuladorAutomatos/main.py:26-28 | the final states become exactly the names in the list; nothing else changes |
| Automaton.Automato.ProximoEstado | LFA/SimuladorAutomatos/main.py:30-36 | the set built by the loop is the union of the destinations of the current states on the symbol |
| Simulator.TicksDecide | LFA/SimuladorAutomatos/main.py:153-176 | from any running point, the remaining ticks stop the timer with "accepted" or "rejected"; it is "accepted" iff the rest of the input never leads to an empty set and ends in a final state |
| Simulator.FullRun | LFA/SimuladorAutomatos/main.py:138-176 | a run started from `{initial}` stops, and says "accepted" exactly when the automaton accepts the string |
| Simulator.StuckRejects | LFA/SimuladorAutomatos/main.py:155-169 | a symbol leading nowhere consumes one position, keeps the configuration, stops the timer and rejects |
| Simulator.DestinationLines | LFA/SimuladorAutomatos/main.py:208-209 | every destination of the key is written once, as an `origin:symbol>destination` line |
| Simulator.TransitionBlock | LFA/SimuladorAutomatos/main.py:206-209 | the block lists the keys in sorted order, each followed by one line per destination, every destination once |
| Simulator.KeyBlocks | LFA/SimuladorAutomatos/main.py:207-209 | the loop over the sorted keys writes exactly their lines, in order, and lists each key's destinations once |
| Simulator.ReadSections | LFA/SimuladorAutomatos/main.py:226-244 | the line loop with its `section` variable computes the section-by-section staging, or stops at the first transition line that does not split |
| Simulator.SimulatorApp.constructor | LFA/SimuladorAutomatos/main.py:90-95 | a fresh empty automaton, an empty input, position 0 and the timer stopped |
| Simulator.SimulatorApp.AdicionarTransicao | LFA/SimuladorAutomatos/main.py:121-131 | with all three fields filled, the transition is added and reported; otherwise nothing changes and the fields are asked for |
| Simulator.SimulatorApp.IniciarSimulacao | LFA/SimuladorAutomatos/main.py:133-150 | a non-empty initial state is set and becomes the only active state; the final states are the comma-separated names; the run starts at position 0 only for a non-empty input |
| Simulator.SimulatorApp.ProximoPasso | LFA/SimuladorAutomatos/main.py:153-176 | one tick is one `Passo`: it consumes one symbol while input remains, and at the end it accepts iff an active state is final; the automaton's relation and sets do not change |
| Simulator.SimulatorApp.SalvarProjeto | LFA/SimuladorAutomatos/main.py:178-209 | with an initial state: the five headers in order; sorted states, finals and alphabet; and the transition lines by sorted key. Without one: the `#states` block and the `#initial` header, and `ok` is false |
| Simulator.SimulatorApp.CarregarProjeto | LFA/SimuladorAutomatos/main.py:211-261 | succeeds iff the file loads. On failure the automaton is untouched and the error is shown. On success the states, initial state and finals are replaced, and the staged transitions are merged into the old ones |
| Simulator.SimulatorApp.Commit | LFA/SimuladorAutomatos/main.py:250-255 | the staged sets replace the automaton's; every staged transition is added with its endpoints, in any order |
| Simulator.SaveAndReload | LFA/SimuladorAutomatos/main.py:178-255 | loading the saved file into a new window gives back the same states, initial state, final states and transitions, for a deterministic automaton with well-formed names |
| Simulator.Reloaded | LFA/SimuladorAutomatos/main.py:186-255 | the saved lines load, and what they stage commits to the saved automaton |
| ProjectFile.Clean | LFA/SimuladorAutomatos/main.py:218 | every kept line is non-empty and stripped |
| ProjectFile.Load | LFA/SimuladorAutomatos/main.py:246-248 | a load that succeeds has an initial state |
| ProjectFile.ParseTransitionSound | LFA/SimuladorAutomatos/main.py:242-243 | a line that splits into `origin`, `symbol` and `destination` is exactly their `o:s>d` line |
| ProjectFile.ParseLine | LFA/SimuladorAutomatos/main.py:242-244 | a written `o:s>d` line with well-formed names parses back to its key and destination |
| ProjectFile.StepTransition | LFA/SimuladorAutomatos/main.py:240-244 | in the transitions section a line sets the staged destination of its key |
| ProjectFile.LastDestinationWins | LFA/SimuladorAutomatos/main.py:244 | of two lines for the same key, the second destination is kept |
| ProjectFile.LoadHeader | LFA/SimuladorAutomatos/main.py:228-229 | a `#name` line switches the section and changes nothing else |
| ProjectFile.LoadInitial | LFA/SimuladorAutomatos/main.py:233-234 | a line in the initial section becomes the staged initial state |
| ProjectFile.LoadNames | LFA/SimuladorAutomatos/main.py:231-239 | entries of the states, accepting or alphabet section are added to that section's set |
| ProjectFile.LoadTransitions | LFA/SimuladorAutomatos/main.py:240-244 | the transition lines of a deterministic relation stage exactly its map |
| ProjectFile.CleanNewlines | LFA/SimuladorAutomatos/main.py:216-218 | stripping the lines `readlines` returns for written lines gives the written lines back |
| ProjectFile.StripLine | LFA/SimuladorAutomatos/main.py:218 | `strip` removes the newline that ends a saved line |
| ProjectFile.SortedNames | LFA/SimuladorAutomatos/main.py:187 | `sorted` of a set is ordered and holds exactly the set's elements |
| ProjectFile.SortedKeys | LFA/SimuladorAutomatos/main.py:207 | the keys in sorted order, each once |
| ProjectFile.ListingOfLift | LFA/SimuladorAutomatos/main.py:207-209 | a deterministic relation writes one line per key |
| ProjectFile.Lift | LFA/SimuladorAutomatos/main.py:244 | a staged map seen as a relation has the same keys and no empty destination set |
| ProjectFile.Merge | LFA/SimuladorAutomatos/main.py:254-255 | the keys after the commit are the old keys plus the staged ones; each key's destinations are its old destinations plus its staged one |
| ProjectFile.MergeIntoEmpty | LFA/SimuladorAutomatos/main.py:254-255 | committing into an empty relation gives the staged map itself |
| ProjectFile.MergeAdd | LFA/SimuladorAutomatos/main.py:254-255 | merging one more staged transition is one more call of `adicionar_transicao` |
| ProjectFile.LiftAdd | LFA/SimuladorAutomatos/main.py:254-255 | adding a staged transition under a new key adds it to the relation |
| ProjectFile.StagedEndpointsLift | LFA/SimuladorAutomatos/main.py:254-255 | the states the commit adds are the endpoints of the staged transitions |
| ProjectFile.RoundTrip | LFA/SimuladorAutomatos/main.py:186-255 | loading the saved lines of a deterministic automaton stages its states, initial state, final states, alphabet and transitions; committing them adds no state |
| Ordering.StrLessIsStrictTotal | LFA/SimuladorAutomatos/main.py:187 | Python's string `<` is irreflexive, transitive and total, so `sorted` has one answer |
| Ordering.KeyLessIsStrictTotal | LFA/SimuladorAutomatos/main.py:207 | the same holds for `(origin, symbol)` pairs |
| Ordering.SortedUnique | LFA/SimuladorAutomatos/main.py:187 | two sorted lists of the same elements are equal |
| Ordering.SortSet | LFA/SimuladorAutomatos/main.py:187 | insertion sort of a set returns its unique sorted listing |
| Text.Strip | LFA/SimuladorAutomatos/main.py:218 | the result has no whitespace at either end and is no longer than the input |
| Text.StripPadded | AI/SimpleClassifier/app.py:132 | `strip` removes exactly the whitespace padding around a stripped string |
| Text.SplitJoinAll | LFA/SimuladorAutomatos/main.py:242-243 | joining the pieces of `split(sep)` with `sep` gives the string back |
| Text.SplitLinesJoin | LFA/GLC/glc.py:104 | `splitlines` undoes a newline join of lines without breaks whose last line is not empty |
| Text.SplitLinesTerminated | LFA/GLC/glc.py:121-122 | `splitlines` also undoes a newline join followed by a final newline |
| Text.Lower | AI/SimpleClassifier/app.py:132 | same length, and each character lowered in place |
| Text.RemoveAll | AI/SimpleClassifier/app.py:132 | `c` no longer occurs, and every other character of the input still occurs |
| Text.RemoveAllConcat | AI/SimpleClassifier/app.py:132 | `replace(c, "")` of `a + b` is that of `a` followed by that of `b`, so the kept characters keep their order and their number |
| Text.RemoveAllChar | AI/SimpleClassifier/app.py:132 | one character is dropped when it is `c` and kept otherwise |
| Text.RemoveAllKeep | AI/SimpleClassifier/app.py:132 | a final character other than `c` stays at the end |
| Text.RemoveAllDrop | AI/SimpleClassifier/app.py:132 | a `c` is dropped wherever it stands, leaving the pieces around it joined |
| Text.LowerConcat | AI/SimpleClassifier/app.py:132 | `lower` of `a + b` is `lower` of `a` followed by `lower` of `b` |
| Text.RStripChar | AI/SimpleClassifier/app.py:132 | a prefix of the input that does not end in `c`; only trailing `c`s are removed |
| Search.OccurrencesMeaning | LFA/KMP/busca_v2.py:16-32 | the list holds exactly the starts of the occurrences, in increasing order |
| Search.NaiveComparisonsBounds | LFA/KMP/busca_v2.py:16-28 | the window search makes at most `len(padrao)` comparisons per window, and at least one per window for a non-empty pattern |
| Search.BuscaComparacao | LFA/KMP/busca_v2.py:11-34 | returns every occurrence in increasing order, and the count of comparisons up to each window's first mismatch |
| Search.LongestBorder | LFA/KMP/busca_v2.py:42-51 | the value is a proper border of the prefix, and no longer proper border exists |
| Search.ExtendBorder | LFA/KMP/busca_v2.py:44-51 | after the fallback loop, the table entry is one more than the border `padrao[i]` extends, or 0 |
| Search.FallBack | LFA/KMP/busca_v2.py:44-46 | the fallback `p = prefixo[p - 1]` skips no border that `padrao[i]` could still extend |
| Search.Prefixo | LFA/KMP/busca_v2.py:37-53 | a table of length `len(padrao)` whose entry `i` is the longest proper border of `padrao[..i + 1]` |
| Search.Shift | LFA/KMP/busca_v2.py:76-81 | after a fallback, the still-matched text agrees with the pattern's prefix, and no skipped start is an occurrence |
| Search.ScanDone | LFA/KMP/busca_v2.py:64-85 | when the scan reaches the end of the text, it has recorded exactly the occurrences |
| Search.BuscaKMP | LFA/KMP/busca_v2.py:56-85 | for a non-empty pattern, returns every occurrence in increasing order, overlapping ones included, with at most `2 * len(texto)` comparisons |
| Search.MostrarResultados | LFA/KMP/busca_v2.py:99-140 | an empty stripped pattern is refused before any search; otherwise both searches give the same list for the stripped text and the stripped, lowered pattern; the basic count is the window search's exact comparison count and the KMP count is at most twice the text length |
| Grammar.Lookup | LFA/GLC/glc.py:109 | a missing key reports `None` exactly when no entry has that key |
| Grammar.Put | LFA/GLC/glc.py:109 | the key gets the new alternatives and every other key keeps its value; a new key goes last and an old key keeps its place |
| Grammar.PutDistinct | LFA/GLC/glc.py:109 | assignment keeps the keys distinct |
| Grammar.ParseGrammar | LFA/GLC/glc.py:101-110 | the loop over `splitlines` computes the line-by-line parse |
| Grammar.ParseFails | LFA/GLC/glc.py:105-106 | parsing fails iff some line has `->` more than once, and it then reports such a line |
| Grammar.ParseLookup | LFA/GLC/glc.py:104-109 | after a parse, each left side holds the stripped alternatives of its last defining line; lines without `->` define nothing |
| Grammar.ParseDistinct | LFA/GLC/glc.py:101-110 | the parsed dictionary holds every key once |
| Grammar.FormatLines | LFA/GLC/glc.py:134-136 | one line per entry, in dictionary order: the key, an arrow, and the alternatives joined by a spaced bar |
| Grammar.SaveTxt | LFA/GLC/glc.py:88-93 | the file is the formatted lines, each followed by a newline |
| Grammar.RoundTrip | LFA/GLC/glc.py:101-110 | parsing the formatted text gives back the same dictionary |
| Grammar.SaveRoundTrip | LFA/GLC/glc.py:88-93 | loading a saved txt file gives back the same dictionary |
| Grammar.SplitAlternatives | LFA/GLC/glc.py:108 | splitting the written alternatives at the bar and stripping each gives them back |
| Grammar.LSystemGenerate | LFA/GLC/glc.py:321-327 | the loop computes the `iterations`-th generation; a negative count gives the axiom |
| Grammar.RewriteConcat | LFA/GLC/glc.py:325 | rewriting works character by character |
| Grammar.RewriteUnruled | LFA/GLC/glc.py:325 | characters without a rule are kept |
| Grammar.GenerationNoRules | LFA/GLC/glc.py:321-327 | with an empty rule map every generation is the axiom |
| Grammar.GenerationAdd | LFA/GLC/glc.py:321-327 | `n` steps and then `m` steps are `n + m` steps |
| Degrees.Pairs | MTD/run.py:37-39 | one `(vertice, vizinho)` pair per neighbour, in order |
| Degrees.CriarArestas | MTD/run.py:35-39 | the nested loop builds the edges vertex by vertex in input order |
| Degrees.EdgesMeaning | MTD/run.py:35-39 | `(a, b)` is an edge iff `b` was typed as a neighbour of a vertex `a`; there is one edge per typed neighbour |
| Degrees.DegreeConcat | MTD/run.py:143 | the degree over two edge lists is the sum of the degrees |
| Degrees.DegreeBounds | MTD/run.py:143 | a degree is at most the number of edges; it equals it iff every edge touches the vertex, and it is 0 iff none does |
| Degrees.SelfLoopCountsOnce | MTD/run.py:143 | a self-loop adds one to the degree, not two |
| Degrees.GrauMaximo | MTD/run.py:138-147 | at least every vertex's degree and equal to some vertex's degree; 0 with no vertex; at most the number of edges |
| Degrees.GrauMinimo | MTD/run.py:149-157 | infinity iff there is no vertex; otherwise at most every vertex's degree and equal to some vertex's degree |
| Degrees.Extremes | MTD/run.py:138-166 | the minimum is at most the maximum; they are equal iff there are vertices and all have the same degree |
| Degrees.Completo | MTD/run.py:160-166 | true iff there are vertices and all have the same degree |
| Degrees.Propriedades | MTD/run.py:55-58 | the four printed figures; with vertices, `grauMinimo <= grauMaximo <= totalArestas` |
| Filters.Media | VC/AplicacaoFiltros/run.py:28 | the floor of the mean, which lies between the smallest and the largest channel |
| Filters.PixelCinza | VC/AplicacaoFiltros/run.py:27-30 | three equal channels, and a byte pixel stays a byte pixel |
| Filters.CinzaIdempotent | VC/AplicacaoFiltros/run.py:27-30 | a grey pixel is kept, so graying twice is graying once |
| Filters.CanalNegativo | VC/AplicacaoFiltros/run.py:50 | `255 - c` is a byte iff `c` is |
| Filters.NegativoInvolution | VC/AplicacaoFiltros/run.py:48-50 | the negative of the negative pixel is the pixel |
| Filters.CanalBrilho | VC/AplicacaoFiltros/run.py:86 | never above 255, never darker, 255 exactly from 105 on, otherwise `c + 150` |
| Filters.BrilhoTwice | VC/AplicacaoFiltros/run.py:86 | brightening twice saturates every byte |
| Filters.CanalContraste | VC/AplicacaoFiltros/run.py:98-108 | a byte; 0 iff `c <= 64`, 255 iff `c >= 192`, and otherwise twice as far from 128 |
| Filters.ContrasteMonotone | VC/AplicacaoFiltros/run.py:98-108 | contrast keeps the order of channel values and fixes 128 |
| Filters.PixelContraste | VC/AplicacaoFiltros/run.py:102-108 | every output pixel is a byte pixel, whatever the input |
| Filters.PixelMaluco | VC/AplicacaoFiltros/run.py:120-125 | each channel uses the already replaced ones, giving `(g + b, 2g + 4b, 9g + 15b)` |
| Filters.MalucoIgnoresRed | VC/AplicacaoFiltros/run.py:120-122 | the input red channel has no effect |
| Filters.MalucoBounds | VC/AplicacaoFiltros/run.py:120-125 | on byte pixels the channels are non-negative and at most 510, 1530 and 6120; a blue of 18 already leaves the byte range |
| Filters.MapPixels | VC/AplicacaoFiltros/run.py:25-30 | a fresh image of the same size holding the mapped pixel at every position |
| Filters.MappedValid | VC/AplicacaoFiltros/run.py:25-30 | a pointwise filter that keeps byte pixels keeps a valid image valid |
| Filters.FiltroCinza | VC/AplicacaoFiltros/run.py:14-32 | a new image of the input's size, grey pixel by pixel |
| Filters.FiltroNegativo | VC/AplicacaoFiltros/run.py:35-52 | a new image of the input's size, negated pixel by pixel |
| Filters.FiltroBrilho | VC/AplicacaoFiltros/run.py:74-88 | a new image of the input's size, brightened pixel by pixel |
| Filters.FiltroContraste | VC/AplicacaoFiltros/run.py:90-109 | a new image of the input's size, contrasted pixel by pixel |
| Filters.FiltroMaluco | VC/AplicacaoFiltros/run.py:111-126 | a new image of the input's size, with `PixelMaluco` at every position |
| Filters.NegativoTwice | VC/AplicacaoFiltros/run.py:35-52 | negating a negative image gives back the original pixels |
| Filters.RotateRow | VC/AplicacaoFiltros/run.py:68-70 | one input row is written, mirrored, into the opposite output row, and each position is written once |
| Filters.NextRow | VC/AplicacaoFiltros/run.py:67-68 | finishing row `y` is starting row `y + 1` |
| Filters.FiltroRotacao180 | VC/AplicacaoFiltros/run.py:56-72 | a new image of the same size with the pixel of `(w-1-x, h-1-y)` at `(x, y)`; every position is written exactly once, and nothing outside the image is written |
| Filters.RotacaoTwice | VC/AplicacaoFiltros/run.py:56-72 | rotating twice gives back the original pixels |
| Filters.RotatedValid | VC/AplicacaoFiltros/run.py:67-70 | rotation keeps a valid image valid |
| Filters.ModosDoMosaico | VC/AplicacaoFiltros/run.py:128-138 | the nine tiles read their transformations from the table, and unknown names mean the original image |
| Filters.EachFilterOnce | VC/AplicacaoFiltros/run.py:128-138 | no filter is used for two tiles |
| Filters.FilteredSize | VC/AplicacaoFiltros/run.py:165-180 | every branch of the mosaic keeps the image size |
| Filters.Filtrar | VC/AplicacaoFiltros/run.py:165-180 | the `if`/`elif` chain calls the matching filter, or passes the image itself for `normal` |
| Filters.TileIndex | VC/AplicacaoFiltros/run.py:156-182 | `idx` read back gives row `idx / 3` and column `idx % 3` |
| Filters.Mosaico | VC/AplicacaoFiltros/run.py:144-185 | a canvas of three image widths by three heights; tile `idx = lin * 3 + col` is pasted at `(col * w, lin * h)` with `TRANSFORMES[idx]` applied |
| Filters.MulGap | VC/AplicacaoFiltros/run.py:159-162 | a larger tile index puts the tile at least one image size further |
| Filters.BandUnique | VC/AplicacaoFiltros/run.py:159-162 | two tile bands that share a point are the same band |
| Filters.TilesPartition | VC/AplicacaoFiltros/run.py:144-185 | every canvas point lies in exactly one of the nine tiles |
| Filters.TilesInsideCanvas | VC/AplicacaoFiltros/run.py:144-185 | no tile reaches outside the canvas |
| Kernel.EnsureOdd | VC/Ruido/main.py:44-46 | odd; `k` or `k + 1`; unchanged exactly when `k` is odd |
| Kernel.EnsureOddLeast | VC/Ruido/main.py:44-46 | the least odd number not below `k` |
| Kernel.EnsureOddIdempotent | VC/Ruido/main.py:44-46 | normalising twice is normalising once |
| Kernel.EnsureOddMonotone | VC/Ruido/main.py:44-46 | sizes keep their order |
| Kernel.MedianAperture | VC/Ruido/main.py:237 | at least 3 and at least `k`, and `k` itself from 3 on |
| Kernel.SliderKernel | VC/Ruido/main.py:94-96 | slider values 1..31 give an odd kernel in 1..31 and an odd median aperture in 3..31 |
| Kernel.OddKernelsFixed | VC/Ruido/main.py:323 | a kernel passes through `ensure_odd` and `max(3, kk)` unchanged iff it is odd and at least 3, as the batch kernels 3 and 7 are |
| FloodAlert.ResolveLabel | AI/SimpleClassifier/app.py:127-129 | a falsy label with an index becomes the table entry, or `Desconhecido` for an unknown index; otherwise the label is kept |
| FloodAlert.CleanLabel | AI/SimpleClassifier/app.py:132 | the cleaned label has no hyphen, no trailing `s` and no capital letter |
| FloodAlert.CleanChars | AI/SimpleClassifier/app.py:132 | after lowering, `replace("-", "")` and `rstrip("s")`, no character is a capital or a hyphen |
| FloodAlert.CleanLabelStrip | AI/SimpleClassifier/app.py:132 | cleaning a label and cleaning its stripped form agree |
| FloodAlert.CleanLabelPadding | AI/SimpleClassifier/app.py:131-132 | for a trimmed label, whitespace added around it changes nothing |
| FloodAlert.CleanLabelPlural | AI/SimpleClassifier/app.py:131-132 | for every trimmed label, an `s` appended changes nothing |
| FloodAlert.CleanLabelHyphen | AI/SimpleClassifier/app.py:131-132 | for every label, a hyphen inserted anywhere changes nothing, as long as the label is trimmed with and without it |
| FloodAlert.CleanTrimmed | AI/SimpleClassifier/app.py:132 | a trimmed label is cleaned by the last three steps alone |
| FloodAlert.TrimmedSnoc | AI/SimpleClassifier/app.py:132 | a trimmed string stays trimmed when a non-blank character is appended |
| FloodAlert.RStripSnoc | AI/SimpleClassifier/app.py:132 | `rstrip(c)` removes one more trailing `c` too |
| FloodAlert.Confirmar | AI/SimpleClassifier/app.py:127-151 | an error iff there is neither a label nor an index; the alert iff the cleaned label is `enchente` or `alerta`; the box shows the resolved label |
| FloodAlert.NormalFor | AI/SimpleClassifier/app.py:136-145 | a label whose cleaned form is no alert word gives the normal status |
| FloodAlert.UnknownIndexIsNormal | AI/SimpleClassifier/app.py:128-129 | a falsy label with an unknown index shows `Desconhecido` and no alert |
| FloodAlert.AlertFor | AI/SimpleClassifier/app.py:132-140 | a non-empty label that cleans to an alert word raises the alert, whatever the index |
| FloodAlert.AlertExamples | AI/SimpleClassifier/app.py:132-140 | `Enchentes`, ` ALERTA ` and `En-chente` all raise the alert |
| FloodAlert.PluralExample | AI/SimpleClassifier/app.py:132 | `Enchentes` cleans to `enchente` |
| FloodAlert.CapitalsExample | AI/SimpleClassifier/app.py:132 | ` ALERTA ` cleans to `alerta` |
| FloodAlert.HyphenExample | AI/SimpleClassifier/app.py:132 | `En-chente` cleans to `enchente` |
| FloodAlert.StripLower | AI/SimpleClassifier/app.py:132 | `lower` commutes with `strip` |
| FloodAlert.CleanLabelCaseBlind | AI/SimpleClassifier/app.py:132 | the decision does not depend on the case of the label |

## Left out

- The graphical front ends are not modelled: PyQt5 and Tk widgets, message boxes, `paintEvent`, `desenhar_transicao` and `desenhar_seta`. A `QTimer` tick is one explicit call of `ProximoPasso`, and the timer's state is the `running` flag.
- File dialogs, `open`, `write` and `readlines` are not modelled, and neither is the `.txt` suffix fix-up of `salvar_projeto`. A saved file is the list of its lines. A loaded file is the list `readlines` returns, with a newline at the end of each line.
- Simulator.SimulatorApp.SalvarProjeto: when no initial state has been set, the Python attribute read raises after the `#states` block and the `#initial` header are written. The model returns those lines with `ok` false and does not model the exception's path through Qt.
- Simulator.SimulatorApp.ProximoPasso: the status text lists the new states in the order the set is visited. The model keeps the set.
- Automaton.Automato.ProximoEstado: its contract gives the result as `Successors`. The pointwise membership is the lemma `Automaton.SuccessorsMember`.
- Search.BuscaKMP: requires a non-empty pattern. For an empty pattern and a non-empty text the Python code reads `padrao[0]` and raises; for an empty pattern and an empty text it returns no occurrence and 0 comparisons. Its only caller refuses an empty pattern first.
- The `output_text` trace lines and the `time()` measurements of LFA/KMP/busca_v2.py are not modelled.
- The random parts of LFA/GLC/glc.py are not modelled: `expand`, `generate_random_sentence`, `build_graph`, `apply_rules` and `generate_lsystem_image`. Neither are `draw_lsystem` (floating-point turtle geometry), pyvis, the browser, and the JSON load and save.
- Grammar.LSystemGenerate: the rule dictionary is a map from one-character strings. A longer key can never match a character, so it has no effect, as in Python.
- MTD/run.py outside the degree logic is not modelled. This covers the networkx properties (acyclic, Eulerian, connected, bipartite, colouring, diameter, perimeter), matplotlib, pandas, `os.listdir` and the `input()` menu. The answers typed at `input()` are parameters of `Degrees.CriarArestas`.
- PIL's `open`, `convert`, `paste` and `save`, and matplotlib, are not modelled. Neither is how PIL stores the out-of-range channels `filtro_maluco` computes: the model keeps the integers. `Filters.Mosaico` records which tile goes where rather than copying pixels into a canvas.
- Text.Lower: models Python's `lower` on ASCII letters only. Other Unicode case mappings are not modelled.
- VC/Ruido/main.py outside `ensure_odd` and the kernel sizes is not modelled. This covers the OpenCV and skimage noise, blur and edge calls and the PSNR/SSIM metrics, as well as VC/Ruido/auto.py, VC/AreaFolha/run.py and VC/BoundingBox/run.py.
- Kernel.EnsureOdd: takes an integer. The `int(k)` conversion of other numeric types is not modelled; the slider and the batch list only give integers.
- AI/SimpleClassifier is not modelled beyond the label logic: the model call `classificaumaimagem` (its result is a parameter), image thumbnails, window centring, training and metrics.
- FloodAlert.Confirmar: covers the messages shown only through the label they display. The debug `print` lines are not modelled.
- VC/AprendizadoProfundo and the networks under AI/Rede Mínima are not modelled.
