# Verified models of Link Grammar's connector machinery

This project models, in Dafny, the parts of Link Grammar that share, match, number and store
connectors, and proves what these parts are for. Code that changes memory step by step is modelled
by methods with loops over arrays or fields, each proved against a specification function; the
properties are then proved of the specification for all inputs and all runs.

**Tracon packing** (`Connectors`, `TraconSet`, `PackingSpec`, `PackingMeaning`, `PackingAccounts`,
`PackingMarks`, `PackingUcs`, `PackingTheorems`, `PackingSharing`, `PackingBounds`, `SentenceBounds`,
`ParsingSharing`, `PackingMidway`, `Packer`, `SentencePacker`). A sentence's disjuncts are copied into one counted block, and identical trailing
connector sequences are shared through a hash table. A memory is a sequence of connector cells; a
pointer is NULL or a cell index; a table slot stands for whatever its chain spells in memory, so the
proofs follow slots that point into chains still being built. `PackingSpec` says in closed form what
packing a jet does, the `Packing...` modules prove meaning, reference counts, ids, index lists, shallow
marks, per-word counts and that all that can be shared is shared, `SentenceBounds` follows the word
bounds through packing for pruning and again for parsing, `ParsingSharing` says what the second packing
shares, and `Packer` computes the same cell by cell.

**Probing** (`Probing`, `Primality`, `TableSizes`, `LongSearches`). The quadratic probe sequence as the
code computes it in 32 bits, for which sizes the first half of it bounds a search, primality
certificates for the listed sizes, and the searches that can take longer.

**Connector matching and numbering** (`ConnectorMatch`, `NameForms`, `UcOrder`, `Bits`, `ConTable`,
`NumberingSession`, `LengthLimits`). Names as byte strings, their compilation into 64-bit words, the
interning table with linear probing, batch and incremental numbering of upper-case parts, whole runs of
both, and the merge scan for length limits.

**Duplicate disjuncts** (`Duplicates`, `DuplicateTable`), **dialects** (`Dialect`), **link names**
(`LinkNames`), **memory pool** (`MemoryPool`), **cost numbers** (`CostParser`).

## Where the code does not do what it says

- A connector with a head or dependent mark does not match itself, so a length-limit definition that
  names it need not limit it (`LengthLimits.MatchesItself`).
- A dialect section referred to twice is reported as a loop even if there is none
  (`Dialects.DiamondFails`).
- A pool whose data is padded cannot be traversed beyond its first block
  (`MemoryPool.TraversalExactly`, `MemoryPool.PaddedExample`).

## What the source leaves to its callers

These limits the source states itself; here are their exact conditions.

- Names are compared as strings after an upper-case part without underscore. With underscores, comparing
  by string and by parts differ exactly on names whose polarities do not clash, whose runs of capitals
  are equal, whose rests after the capitals match as subscripts, and whose upper-case parts differ
  (`ConnectorMatch.AgreeExactly`), such as `_IB` and `_IBA` (`ConnectorMatch.IdiomsDisagree`).
- A subscript is packed up to nine characters. A tenth is accepted and not compared
  (`ConnectorMatch.DescriptorsRefineNames`, `ConnectorMatch.TenthExample`).
- Numbering in several rounds assumes names in capitals only. In general one upper-case part gets two
  numbers exactly when it comes back in a later round (`NumberingSessions.RunSession`,
  `NumberingSessions.PartReturns`); with capitals only it never does
  (`NumberingSessions.UpperNeverReturns`).

## Reading the model

- A run of the packer is judged by `Abs()`, which turns its fields into the specification's state.
  Ghost histories (`jets`, `home`) record which packed jet came from which original.
- `SentenceOk` says that jets are finite lists and, for pruning, that upper-case numbers and word
  numbers fit their tables.
- A thread of the link-name protocol takes one step at a time; a run is any sequence of steps of any
  threads, from a session in which every stored name, if there is one, lies below the last number.
- A search of the tracon table visits slots in 32-bit arithmetic (`Probing.Visit`): the probe sequence
  until the sum of slot and step wraps, other slots after that. Thirteen of the listed sizes are prime,
  and there a search ends within the first half of its probes (`TraconSets.StopsInFirstHalf`). The
  sizes 33939 and 101817 are composite (`TableSizes.SizesDecided`); there the probe sequence does not
  bound a search, which can run on until the sum wraps, after some 2^31 collisions
  (`LongSearches.LongSearchesExactly`). What the wrapped sums visit is modelled but not bounded here.
  Searching therefore returns a flag, true if and only if the code's own search returns
  (`TraconSets.TraconSet.FindPlace`), and packing one that is false only when such a search does not
  return or the sizes are used up. A sentence of at most 4243 connectors never needs the two sizes
  (`SentencePackers.PackSentence`).
- Packing for parsing compares the word bounds of a shared tracon at its first connector only. This
  loses nothing because packing for pruning has already made one cell of all that could be shared
  (`SentenceBounds.ParsingKeepsBounds`); lists that never went through it could lose bounds
  (`PackingBounds.BoundsCanBeLost`). The theorem lets pruning change word bounds in any way and
  drop any disjuncts; it takes from `link-grammar/parse/prune.c` that connector types and links stay,
  and that the disjuncts it marks with a connector of its own (lines 2037 and 2075) are dropped; a
  gword is taken to belong to one word of the sentence.
- Two empty disjuncts would not be recognised as duplicates, but `build_disjunct()` makes none
  (`link-grammar/prepare/build-disjuncts.c:245`).
- Costs are real numbers in dialects and disjuncts and ten-thousandths in `CostParser`; floating-point
  rounding is not modelled.
- The two `qsort()` calls are represented by methods of which only "sorted permutation" is used.

## Model

| member | source | states |
|---|---|---|
| `Probing.Euclid` | link-grammar/tracon-set.c:180-206 | A prime that divides a product of a smaller positive number and another divides the other: the number theory behind the probe sequence. |
| `Probing.ProbeStep` | link-grammar/tracon-set.c:200-203 | Adding 2i-1 and reducing only on overflow visits h + i*i modulo the size. |
| `Probing.VisitIsProbe` | link-grammar/tracon-set.c:180-206 | The slot the code visits after i collisions, adding the step in 32 bits, is h + i*i modulo n for every i with n + 2i - 1 up to 2^32. |
| `Probing.FirstHalfFits` | link-grammar/tracon-set.c:180-206 | So it is for the first half of the probes at every listed size. |
| `Probing.VisitedEarly` | link-grammar/tracon-set.c:180-206 | Whatever slot the search ever visits, before or after its sum wraps, it visits within n * 2^31 collisions. |
| `Probing.ProbePeriodic` | link-grammar/tracon-set.c:180-206 | The probe sequence h + i*i repeats after n probes. |
| `Probing.ProbesDistinct` | link-grammar/tracon-set.c:180-206 | In a table of prime size the first (p+1)/2 probes are pairwise distinct. |
| `Probing.PrimeEscapes` | link-grammar/tracon-set.h:61 | With a prime size and at most 3/8 of the slots occupied, the probe sequence of every hash reaches a free slot, for every set of occupied slots. |
| `Probing.EscapesExactly` | link-grammar/tracon-set.c:180-206 | For every size: the probe sequence is certain to leave the occupied slots within the fill limit if and only if one sequence visits more slots than the limit lets be occupied. |
| `TableSizes.SizesDecided` | link-grammar/const-prime.h:19-23 | All fifteen listed sizes: prime, and certain to let every probe escape within the fill limit, if and only if not the fifth or the sixth. |
| `LongSearches.LongSearchesExactly` | link-grammar/tracon-set.c:180-206 | A table in order and within its fill limit with a search that outlasts the first half of its probes exists at a listed size if and only if it is the fifth or the sixth. |
| `LongSearches.LongSearchExists` | link-grammar/tracon-set.c:180-206 | At either of these there are such a table, a memory that spells its entries, and a connector list of that memory, with a search of more than (2^32 - n) / 2 collisions. |
| `LongSearches.LongThenUntilWrap` | link-grammar/tracon-set.c:180-206 | A search that has collided n times collides at all of its first (2^32 - n) / 2 places: only the wrapping of its 32-bit sum can lead it to a free slot. |
| `TraconSets.HashExample` | link-grammar/connectors.h:355-368 | The hashes of a list of one connector and of two, and the table hash of a deep and of a shallow tracon, as numbers. |
| `Probing.LimitIs` | link-grammar/tracon-set.h:61 | The fill limit is three eighths of the slots, rounded down. |
| `TraconSets.ConnectorListHash` | link-grammar/connectors.h:355-368 | The list loop computes the 32-bit hash defined on the spelled sequence. |
| `TraconSets.ConnectorListEqual` | link-grammar/tracon-set.c:155-164 | Two chains compare equal exactly when they spell the same sequence. |
| `TraconSets.KeysDistinct` | link-grammar/tracon-set.c:180-206 | No key occupies two slots. |
| `TraconSets.SamePlace` | link-grammar/tracon-set.c:180-206 | Two slots at which a search for one key may stop are the same slot. |
| `TraconSets.StopsAtEmpty` | link-grammar/tracon-set.c:180-206 | A search that stops at an empty slot has missed no entry. |
| `TraconSets.FillKeepsInv` | link-grammar/disjunct-utils.c:699 | Filling the reserved empty slot keeps every entry reachable on its own probe path. |
| `TraconSets.HashOnly` | link-grammar/tracon-set.c:255-256 | Storing only the hash in the reserved slot changes no entry and no path. |
| `TraconSets.AllPassed` | link-grammar/tracon-set.c:180-206 | When n * 2^31 places of the 32-bit search have been other keys, all further ones are. |
| `TraconSets.StopsInFirstHalf` | link-grammar/tracon-set.c:180-206 | At all listed sizes but the fifth and the sixth, within the fill limit, a search makes at most (n - 1) / 2 collisions. |
| `TraconSets.TrappedSize` | link-grammar/tracon-set.c:180-206 | A table of a listed size, in order and within its fill limit, with a search that does not return is of the fifth or the sixth size. |
| `TraconSets.CountsMatch` | link-grammar/tracon-set.c:116-125 | The number of map entries is the number of occupied slots. |
| `TraconSets.NotYetMoved` | link-grammar/tracon-set.c:208-231 | While growing, the entry about to be moved is not yet in the new table: nothing is merged. |
| `TraconSets.AllMoved` | link-grammar/tracon-set.c:208-231 | After growing, the entries moved are exactly the old map: nothing is lost. |
| `TraconSets.TraconSet.constructor` | link-grammar/tracon-set.c:127-145 | A new table is empty, with the first size and all of the fill limit available. |
| `TraconSets.TraconSet.Reset` | link-grammar/tracon-set.c:116-125 | The map becomes empty, the fill limit is available again, and the size stays. |
| `TraconSets.TraconSet.PlaceFound` | link-grammar/tracon-set.c:166-174 | True exactly at an empty slot or at the slot of this key, shallow bit included when enabled. |
| `TraconSets.TraconSet.FindPlace` | link-grammar/tracon-set.c:180-206 | The search as coded, in 32-bit arithmetic with wrapping sum and counter: arrives at the key's slot or at the empty slot on its path if and only if the code's search returns. |
| `TraconSets.TraconSet.GrowTable` | link-grammar/tracon-set.c:208-231 | The next size holds the same map, agrees with memory, and has entries available. It fails only if the last size is full or a search in the new table, partly filled and within its limit, does not return. |
| `TraconSets.TraconSet.Add` | link-grammar/tracon-set.c:238-259 | Returns the key's entry, or an empty slot reserved for it with its hash stored and one entry fewer available. With an entry available, it succeeds if and only if the code's search for this key returns. It fails at the fifth, sixth and full last size only, never with fewer entries than the fourth size admits. |
| `TraconSets.TraconSet.Fill` | link-grammar/disjunct-utils.c:699 | The caller's store into the reserved slot adds exactly this key to the map and leaves the table at rest. |
| `TraconSets.TraconSet.Lookup` | link-grammar/tracon-set.c:261-266 | Returns the entry of the key or NULL, as the map says, if and only if the code's search for it returns. |
| `PackingSpec.Copied` | link-grammar/disjunct-utils.c:682-774 | The number of connectors copied is the first position whose whole remaining sequence may be shared. |
| `PackingSpec.JetKeepsLinks` | link-grammar/disjunct-utils.c:664-778 | Packing a jet changes neither type nor link of any earlier cell. |
| `PackingMeaning.JetSpells` | link-grammar/disjunct-utils.c:664-778 | The packed jet spells what the original spelled, with its cells in the packed block. |
| `PackingMeaning.JetPath` | link-grammar/disjunct-utils.c:664-778 | A packed jet is the new cells in a row followed by the shared chain. |
| `PackingMeaning.JetSound` | link-grammar/disjunct-utils.c:664-778 | Every jet and every tracon table entry stays a packed chain that spells its key; the packed block never points back. |
| `PackingAccounts.JetRefcounts` | link-grammar/disjunct-utils.c:735-768 | After each jet, every cell's reference count is the number of jets through it. |
| `PackingAccounts.RefcountConservation` | link-grammar/disjunct-utils.c:735-768 | The reference counts add up to the total length of all jets. |
| `PackingMarks.JetMarks` | link-grammar/disjunct-utils.c:689-741 | After each jet, direction, token and shallow mark of every cell agree with every jet and tracon through it. |
| `PackingMarks.JetNumbered` | link-grammar/disjunct-utils.c:701-755 | After each jet, ids and list entries are those of the cells of the direction, in order. |
| `PackingMarks.CellsOfExact` | link-grammar/disjunct-utils.c:701-755 | The cells of a direction, in order, are exactly those whose home has this direction, increasing. |
| `PackingTheorems.FirstStamps` | link-grammar/disjunct-utils.c:903-918 | At the start every upper-case part has the stamp 255, which no word in order has, and every word has counted none. |
| `PackingUcs.StampAllCounts` | link-grammar/disjunct-utils.c:746-750 | Stamping a jet's connectors adds the number of its upper-case parts not yet seen for this word. |
| `PackingUcs.JetUcs` | link-grammar/disjunct-utils.c:741-750 | Counting only the copied cells counts all upper-case parts: those of shared cells have been seen for this word. |
| `PackingUcs.NextWordUcs` | link-grammar/disjunct-utils.c:903-918 | A new word starts with no part seen, although no stamp is cleared. |
| `PackingTheorems.PackKeeps` | link-grammar/disjunct-utils.c:1001-1011 | Every invariant holds of the packed sentence, and its disjuncts answer the originals one by one. |
| `PackingTheorems.MeaningPreserved` | link-grammar/disjunct-utils.c:664-831 | In both modes, with or without encoding: same disjuncts in the same order, same word, cost, gword and ordinal, and the same left and right connector sequences. |
| `PackingTheorems.RefcountsCountConnectors` | link-grammar/disjunct-utils.c:735-768 | For pruning: each cell's count is the positive number of jets through it, and the counts add up to the sentence's connector count. |
| `PackingTheorems.BlockFits` | link-grammar/disjunct-utils.c:872-897 | The packed cells never outgrow the block sized by the connector count. |
| `PackingTheorems.JetHome` | link-grammar/disjunct-utils.c:792-806 | Every cell of a jet has the jet's direction and token. |
| `PackingTheorems.HomeDirection` | link-grammar/disjunct-utils.c:664-778 | Every packed cell belongs to the left or to the right side. |
| `PackingTheorems.TraconIdsExact` | link-grammar/disjunct-utils.c:751-755 | For parsing: the ids of a direction are 256 up to next_id - 1 without gaps, one per cell, in cell order. |
| `PackingTheorems.EqualIdsAgree` | link-grammar/disjunct-utils.c:712-755 | For parsing: equal ids in one direction are the same cell, so the same remaining sequence and the same gword; no id is below 256. |
| `PackingTheorems.FirstId` | link-grammar/connectors.h:27-43 | For parsing the first id of either direction is 256, the least power of two above the longest sentence, 254. |
| `PackingTheorems.IdsAvoidWords` | link-grammar/parse/count.c:570-571 | For parsing, no packed connector's id is a word number of a sentence of at most 254 words, so it is never taken for a word's null tracon. |
| `PackingTheorems.TraconListExact` | link-grammar/disjunct-utils.c:696-708 | For pruning with encoding: the two lists are strictly increasing and partition the packed cells. |
| `PackingTheorems.ShallowIffFirst` | link-grammar/disjunct-utils.c:689 | For pruning: in every jet that reaches a cell, the cell is marked shallow exactly when it is the first. |
| `PackingTheorems.UcCountsExact` | link-grammar/disjunct-utils.c:741-750 | For pruning: the number kept per word and direction is the number of different upper-case parts among all of the word's connectors. |
| `PackingBounds.SharingPointBounds` | link-grammar/disjunct-utils.c:712-731 | For parsing: at the sharing point the nearest and farthest word agree. |
| `PackingSharing.JetShares` | link-grammar/disjunct-utils.c:694-741 | For pruning with encoding: after each jet the table has, with every tracon, all its tails, leads to the very cells of the current word's jets, and equal tracons of one direction and word are one cell. |
| `PackingSharing.SharedExactly` | link-grammar/disjunct-utils.c:694-741 | For pruning with encoding, in word order: two connectors of a sentence are one cell if and only if they have the same direction, word and remaining sequence and both or neither are first. |
| `PackingSharing.CellsCountTracons` | link-grammar/disjunct-utils.c:694-741 | For pruning with encoding, in word order: the block has exactly as many cells as the sentence has different tracons, so nothing shareable is copied twice. |
| `SentenceBounds.JetProvenance` | link-grammar/disjunct-utils.c:689-771 | Every tracon in a table is what remains of an earlier jet of the same direction and token. |
| `SentenceBounds.AllBoundsKept` | link-grammar/disjunct-utils.c:712-731 | For parsing: every connector of every packed jet has the original's nearest and farthest word, when not encoding, or when any two non-first connectors of one token and direction with equal remaining sequences have equal bounds. |
| `SentenceBounds.PrunedUniform` | link-grammar/parse/parse.c:623-688 | A sentence packed for pruning with encoding meets that premise when it is packed for parsing, whatever pruning did to the bounds and whichever disjuncts it left. |
| `SentenceBounds.ParsingKeepsBounds` | link-grammar/parse/parse.c:623-688 | Packing for pruning, any change of word bounds, any choice of the packed disjuncts, then packing for parsing: all word bounds are kept, for every connector of every disjunct left. |
| `ParsingSharing.JetRuns` | link-grammar/disjunct-utils.c:712-731 | For parsing with encoding, after each jet: the tables hold the tracons of the current run of one token, each with its first list; cells with that list's bounds are its cells, and every other cell is reached from one place only. |
| `ParsingSharing.JoinedExactly` | link-grammar/disjunct-utils.c:712-731 | For parsing with encoding, for sentences as PrunedUniform leaves them: two connectors are one cell if and only if, in one run of a token and one direction, they have the same remaining sequence and both have the bounds of its first list, or are the same connector, or follow connectors that are one cell. |
| `ParsingSharing.SameIdExactly` | link-grammar/disjunct-utils.c:751-755 | Two connectors of one direction get the same tracon id under exactly this condition on the lists. |
| `PackingBounds.FirstBoundsKept` | link-grammar/disjunct-utils.c:712-731 | For parsing: the first connector of every packed jet of a sentence has the original's bounds. |
| `PackingMidway.MidSpells` | link-grammar/disjunct-utils.c:739-771 | In the middle of a jet, from every copied cell on, the chain through the originals still spells the remaining sequence. |
| `PackingMidway.MidTraconsOk` | link-grammar/disjunct-utils.c:699-771 | In the middle of a jet, every slot's chain spells the key it was inserted for. |
| `PackingMidway.MidCopy` | link-grammar/disjunct-utils.c:736-776 | Copying and linking one more connector leads to the next intermediate memory. |
| `PackingMidway.MidShare` | link-grammar/disjunct-utils.c:757-771 | Linking to the shared tracon leads to the final memory of the jet, up to the reference counts. |
| `Packers.Packer.constructor` | link-grammar/disjunct-utils.c:872-951 | The descriptor starts as the initial state: empty tables, first ids, unseen stamps, zero counts. |
| `Packers.Packer.TlszCheck` | link-grammar/disjunct-utils.c:647-659 | After the size check the tracon list has room for the next entry. |
| `Packers.Packer.FindTracon` | link-grammar/disjunct-utils.c:694-736 | Finds the tracon, or enters the future cell in the slot and in the list. |
| `Packers.Packer.CopyConnector` | link-grammar/disjunct-utils.c:735-755 | The new cell is the original with reference count, id and stamps of the mode. |
| `Packers.Packer.AddReference` | link-grammar/disjunct-utils.c:759-763 | Exactly the cells of the shared chain are counted once more. |
| `Packers.Packer.PackConnectors` | link-grammar/disjunct-utils.c:664-778 | The loop, with its half-built chains and slots, computes the specified jet and leaves the other direction alone; it fails only with the last size full or a search in its table that does not return, and never when the block has no more cells than the fourth size admits entries and no table has grown beyond that size. |
| `Packers.Packer.EnterToken` | link-grammar/disjunct-utils.c:790-806 | The tables are reset exactly when the token changes. |
| `Packers.Packer.PackOne` | link-grammar/disjunct-utils.c:780-811 | One disjunct: both jets packed, all other fields copied. |
| `SentencePackers.CountConnectors` | link-grammar/disjunct-utils.c:499-519 | Counts the connectors of all jets of all words. |
| `SentencePackers.ItemsInOrder` | link-grammar/sentence.c:277 | In a sentence of at most 255 words the disjuncts come in word order with word numbers below the initial stamp, as the part counts need. |
| `SentencePackers.PackWords` | link-grammar/disjunct-utils.c:1001-1011 | Word by word, each word's packed list is its slice of the disjunct block. |
| `SentencePackers.PackSentence` | link-grammar/disjunct-utils.c:1001-1011 | The whole imperative run equals the specified packing, and every word's list means what it meant; not done only when encoding and with a table of the last size full or a search that does not return in a table of the fifth or sixth size, and always done for a sentence of at most 4243 connectors, the fill limit of the fourth size. |
| `NameForms.NamesOfBytes` | link-grammar/connectors.h:64-70 | The well-formed names, byte by byte: 'h', 'd' or nothing, capitals and underscores, then at most ten small letters, digits and stars. |
| `NameForms.PartsOfName` | link-grammar/connectors.c:291-312 | Their parts are those they are written from. |
| `NameForms.MatchOfNames` | link-grammar/connectors.h:274-300 | Two names match if and only if they have not the same polarity, the same upper-case part, and equal subscript characters wherever both have one that is no star. |
| `NameForms.ReadBack` | link-grammar/linkage/analyze-linkage.c:43-66 | Up to nine subscript characters are read back, seven bits after seven bits, from the compiled form, a star as zero; the mask tells stars; nothing follows. |
| `NameForms.PolarityBits` | link-grammar/connectors.c:279-280 | The lowest bit of the letters tells 'h', that of the mask tells that there is a polarity. |
| `ConnectorMatch.RunEnd` | link-grammar/connectors.h:64-70 | The end of the maximal run of name characters. |
| `ConnectorMatch.EasyMatch` | link-grammar/connectors.h:274-300 | On any two strings, the loops compute the polarity test, the upper-case comparison and the wildcard comparison. |
| `ConnectorMatch.ComparedIsMatch` | link-grammar/connectors.h:274-300 | On well-formed names without underscore: matches exactly when polarities do not clash, upper-case parts are equal and subscripts agree up to wildcards and length. |
| `ConnectorMatch.AgreeExactly` | link-grammar/connectors.h:274-300 | For any two well-formed names: matching by string and matching by parts agree if and only if the polarities clash, or the upper-case parts are equal, or the runs of capitals differ, or the rests after the capitals do not match as subscripts. |
| `ConnectorMatch.IdiomsDisagree` | link-grammar/dict-common/idiom.c:140-157 | Names as idioms generate them: _IB and _IBA match as strings but not by parts. |
| `ConnectorMatch.AgreesWithPlain` | link-grammar/connectors.h:64-70 | A name is matched as intended against all names without underscore if and only if it has none itself or begins with one. |
| `ConnectorMatch.EncodeLc` | link-grammar/connectors.c:256-282 | The packing loop computes value and mask words of up to ten characters, polarity in the lowest bit. |
| `ConnectorMatch.CalculateConnectorInfo` | link-grammar/connectors.c:291-312 | Finds the upper-case part and compiles the name. |
| `ConnectorMatch.EncodedWithin` | link-grammar/connectors.h:45-50 | Up to nine 7-bit places stay within 63 bits, so with the polarity bit nothing is lost. |
| `ConnectorMatch.TenthDropped` | link-grammar/connectors.c:279-280 | Making room for the polarity drops a tenth character from value and mask, and nothing else. |
| `ConnectorMatch.MatchKept` | link-grammar/connectors.c:279-280 | The subscripts match if and only if what is kept of them does and no tenth characters clash. |
| `ConnectorMatch.TenthExample` | link-grammar/connectors.c:279-280 | Two names that differ in the tenth subscript character: the strings do not match, the compiled connectors do. |
| `ConnectorMatch.SubscriptBits` | link-grammar/connectors.h:307-311 | The masked difference of two packed subscripts is zero exactly when the strings match, for any two lengths. |
| `ConnectorMatch.FlagBit` | link-grammar/connectors.h:307-311 | The comparison with m1 & m2 & 1 also demands opposite polarities when both have one. |
| `ConnectorMatch.LcMatchIsNameMatch` | link-grammar/connectors.h:307-311 | The word comparison decides polarity and the first nine subscript characters, underscore or not. |
| `ConnectorMatch.DescriptorsRefineNames` | link-grammar/connectors.h:317-321 | Without underscores and given numbers that tell upper-case parts apart: the strings match if and only if the compiled connectors do and no tenth subscript characters clash; easy_match() is that matching of strings. |
| `UcOrder.CompareIsLex` | link-grammar/connectors.c:367-402 | The comparator is alphabetic order of upper-case parts, for equal and unequal lengths. |
| `UcOrder.CompareTotalPreorder` | link-grammar/connectors.c:367-402 | It is a total preorder whose equivalence is having the same upper-case part. |
| `UcOrder.NewPartExact` | link-grammar/connectors.c:447-462 | The test between neighbours is true exactly when the upper-case parts differ. |
| `UcOrder.NumberNext` | link-grammar/connectors.c:440-466 | Numbering the next connector of an ordered list keeps: equal numbers for equal parts only, rising, without gaps. |
| `UcOrder.SortByUcPart` | link-grammar/connectors.c:433 | Stands for qsort with the comparator: some sorted permutation. |
| `ConTables.HashExample` | link-grammar/connectors.c:316-362 | The hash of SJ as a number. |
| `ConTables.ConnectorStrHash` | link-grammar/connectors.c:316-362 | The hash loop over the leading name characters. |
| `ConTables.SearchExact` | link-grammar/connectors.c:496-507 | A linear search that stops at an empty slot has missed no string. |
| `ConTables.Find` | link-grammar/connectors.c:496-507 | Ends, at the string's slot or at the empty slot on its path, whenever some slot is empty. |
| `ConTables.MoveOne` | link-grammar/connectors.c:518-544 | The slot found for a moved descriptor is always empty: the internal error of the growth cannot occur. |
| `ConTables.AllMoved` | link-grammar/connectors.c:518-544 | Growing loses no descriptor. |
| `Bits.MaskIsMod` | link-grammar/connectors.c:499-504 | Masking with a power of two less one is the remainder: home slots and steps stay inside the table. |
| `ConTables.ConTable.constructor` | link-grammar/connectors.c:575-596 | Starts empty; the number of slots is a power of two, more than four and at most eight times the expected number, or four. |
| `ConTables.ConTable.Grow` | link-grammar/connectors.c:518-544 | Twice the size, same strings with the same numbers. |
| `ConTables.ConTable.Add` | link-grammar/connectors.c:546-573 | Equal strings get the same descriptor, a new string the next number and the part number 2^32 - 1; the table doubles exactly when more than 3/8 of it would be used. |
| `ConTables.InternAll` | link-grammar/connectors.c:546-573 | After any sequence of additions the strings are distinct and exactly those added. |
| `ConTables.NumberIsInsertionOrder` | link-grammar/connectors.c:546-573 | A string's number is the count of different strings added before its first addition, for ever. |
| `ConTables.ConTable.Collect` | link-grammar/connectors.c:424-432 | The slots yield each connector, or each one without a number, exactly once. |
| `ConTables.ConTable.Enumerate` | link-grammar/connectors.c:436-466 | The numbering loop over an ordered list. |
| `ConTables.ConTable.SortCondesc` | link-grammar/connectors.c:408-473 | Batch numbering: all connectors in part order, numbers 0 to num_uc - 1. |
| `ConTables.BatchTells` | link-grammar/connectors.c:408-473 | Batch numbers are equal exactly for equal upper-case parts. |
| `ConTables.NewOnes` | link-grammar/dict-atomese/lookup-atomese.cc:408-430 | The connectors without a number are the last num_con - last_num ones, so the array has exactly the right size. |
| `ConTables.AddKeepsNumbering` | link-grammar/connectors.c:546-573 | Interning between rounds keeps numbers tidy, and they tell the numbered connectors apart if and only if they did. |
| `ConTables.ConTable.UpdateCondesc` | link-grammar/dict-atomese/lookup-atomese.cc:408-468 | Incremental numbering uses 0 to num_uc - 1 without gaps and keeps old numbers; it tells connectors apart by upper-case part if and only if it did before and no new connector has an old one's part. |
| `ConTables.UpperNames` | link-grammar/dict-atomese/lookup-atomese.cc:398-406 | Distinct names in capitals only: no new name has the upper-case part of an old one. |
| `NumberingSessions.RunSession` | link-grammar/dict-atomese/lookup-atomese.cc:398-468 | A real run of the table, any interleaving of interning and rounds: the strings are those of InternAll, numbers are without gaps, and they tell connectors apart if and only if no upper-case part came back in a later round. |
| `NumberingSessions.UpperNeverReturns` | link-grammar/dict-atomese/lookup-atomese.cc:398-406 | With names in capitals only, no part ever comes back. |
| `NumberingSessions.PartReturns` | link-grammar/dict-atomese/lookup-atomese.cc:398-406 | A numbered in one round and Aa in the next: the part comes back. |
| `NumberingSessions.RunBatch` | link-grammar/connectors.c:408-473 | A real run that interns all strings and numbers them in one batch: the strings are those of InternAll, and numbers are equal exactly for equal parts. |
| `NumberingSessions.IncrementalAgreesWithBatch` | link-grammar/dict-atomese/lookup-atomese.cc:398-468 | After a run that ends with a round, incremental and batch numbers give the same matching relation if and only if no part came back. |
| `LengthLimits.Scan` | link-grammar/connectors.c:155-190 | The merge scan sets exactly what the double loop would set; the restart place skips no group. |
| `LengthLimits.GroupFound` | link-grammar/connectors.c:158-167 | The scan always stops in the group of the next connector, inside the table. |
| `LengthLimits.SetCondescLengthLimit` | link-grammar/connectors.c:137-191 | One flat definition with a limit of at most 255: exactly the connectors matched by one of its own end with that limit, the others keep theirs. |
| `LengthLimits.LastDefinitionDecides` | link-grammar/connectors.c:205-214 | The limit is the number given by the last definition that matches. |
| `LengthLimits.NoDefinition` | link-grammar/connectors.c:205-214 | Without a matching definition there is no limit. |
| `LengthLimits.SetAllCondescLengthLimit` | link-grammar/connectors.c:205-227 | All definitions: the last match decides; connectors without a limit get 255, unlimited, exactly when no definition gives 255. |
| `LengthLimits.BatchTable` | link-grammar/connectors.c:408-473 | After batch numbering the scan's precondition holds and matching by number is matching by name. |
| `LengthLimits.MatchesItself` | link-grammar/connectors.c:131-136 | A connector with a polarity does not match itself, contrary to the comment: it matches itself if and only if it has none. |
| `Duplicates.LeastCostIsLeast` | link-grammar/disjunct-utils.c:398 | The cost computed for a kind is the minimum over it. |
| `Duplicates.ScanCondenses` | link-grammar/disjunct-utils.c:350-442 | Comparing with all kept disjuncts leaves one of each kind at its first place, with least cost and all gwords. |
| `Duplicates.NonEmptyCondenses` | link-grammar/disjunct-utils.c:350-442 | For disjuncts that all have a connector, as build_disjunct() makes them, and whose jets are separate, one of each kind is left. |
| `Duplicates.CondensesExactly` | link-grammar/disjunct-utils.c:269-273 | For any disjuncts with separate jets this holds if and only if no empty disjunct occurs twice. |
| `DuplicateTable.HashExample` | link-grammar/disjunct-utils.c:237-254 | The hashes of three strings, one of them not ASCII, and of a disjunct, as numbers. |
| `DuplicateTable.SlotExample` | link-grammar/disjunct-utils.c:250-252 | The slot of that hash among sixteen. |
| `DuplicateTable.TableShape` | link-grammar/disjunct-utils.c:321-359 | The table has at least twice and less than four times as many slots as there are disjuncts, a power of two, and the shift leaves as many bits as number them. |
| `DuplicateTable.NextPowerOfTwoUp` | link-grammar/utilities.h:533-538 | The least power of two not below the argument. |
| `DuplicateTable.DisjunctsEqual` | link-grammar/disjunct-utils.c:265-300 | Computes equality with the pointer shortcut. |
| `DuplicateTable.HashDisjunct` | link-grammar/disjunct-utils.c:237-254 | Hash of both jets and the string, whose characters count as signed, and its slot. |
| `DuplicateTable.BucketFinds` | link-grammar/disjunct-utils.c:370-374 | The first equal disjunct of the bucket is the last kept one that is equal. |
| `DuplicateTable.FindDuplicate` | link-grammar/disjunct-utils.c:370-374 | Searching one bucket is searching all kept disjuncts. |
| `DuplicateTable.Discard` | link-grammar/disjunct-utils.c:398-404 | Least cost, union of gwords, and the duplicate unlinked. |
| `DuplicateTable.Process` | link-grammar/disjunct-utils.c:369-418 | One round keeps list, table and values as the simple form has them. |
| `DuplicateTable.EliminateDuplicateDisjuncts` | link-grammar/disjunct-utils.c:350-442 | With one word string per disjunct, as when parsing: the list ends up as the simple form says, the count is the number removed, nothing outside the list changes, and for non-empty disjuncts with separate jets one of each kind is left with least cost and all gwords. |
| `Dialects.Walk` | link-grammar/dict-common/dialect.c:105-149 | Expansion ends on every table, by the number of sections not yet met and the entries left; sections met are never forgotten. |
| `Dialects.ApplyComponent` | link-grammar/dict-common/dialect.c:78-94 | Writes one cost, or fails for an unknown component. |
| `Dialects.ApplyTableEntry` | link-grammar/dict-common/dialect.c:105-149 | The recursive loop writes and marks exactly what the expansion says, on success and on failure. |
| `Dialects.WalkUnrolls` | link-grammar/dict-common/dialect.c:105-149 | A success is a finite textual expansion in which no section occurs twice. |
| `Dialects.WalkExact` | link-grammar/dict-common/dialect.c:105-149 | Succeeds if and only if the plain textual expansion is finite, knows all names, and expands no section twice. |
| `Dialects.LastWriteWins` | link-grammar/dict-common/dialect.c:91 | In the cost table the last write wins and what is not written stays. |
| `Dialects.ApplyDialect` | link-grammar/dict-common/dialect.c:151-170 | Succeeds if and only if the plain expansion is finite, knows all names and expands nothing twice, and then the cost table is overwritten by it, left to right. A section of entries with costs of at most 10000 and known names always succeeds, each component ending with the cost of its last entry. |
| `Dialects.CostOfReference` | link-grammar/dict-common/dialect.c:114-143 | An entry of cost 10001 is a reference: it writes nothing itself, fails without its section or with one met before, and else is expanded. |
| `Dialects.CostOfSection` | link-grammar/dict-common/dialect.c:112 | An entry of cost 10002 ends the section. |
| `Dialects.LoopFails` | link-grammar/dict-common/dialect.c:132-138 | With a reachable reference cycle it never succeeds. |
| `Dialects.LoopExample` | link-grammar/dict-common/dialect.c:132-138 | Two sections that refer to each other fail. |
| `Dialects.DiamondFails` | link-grammar/dict-common/dialect.c:132-138 | A section used twice without a cycle fails as well. |
| `LinkNames.IdToStr` | link-grammar/dict-atomese/link-names.cc:60-76 | The loop prints the bijective base-26 name. |
| `LinkNames.NumberOfName` | link-grammar/dict-atomese/link-names.cc:60-76 | Reading a printed number gives it back. |
| `LinkNames.NameOfNumber` | link-grammar/dict-atomese/link-names.cc:60-76 | Every non-empty string of capitals is the name of exactly its number. |
| `LinkNames.NamesExact` | link-grammar/dict-atomese/link-names.cc:125-129 | Names are injective, and only 1064 is named ANY. |
| `LinkNames.NextKeeps` | link-grammar/dict-atomese/link-names.cc:97-138 | Every step of every thread keeps the protocol invariant. |
| `LinkNames.NumbersUsed` | link-grammar/dict-atomese/link-names.cc:124-129 | In every interleaving: every number from the first up to the last one, except 1064, is that of exactly one bond or of exactly one name about to be bound. |
| `LinkNames.NamesInUse` | link-grammar/dict-atomese/link-names.cc:97-138 | In a session that starts empty at zero, the names in use are exactly the names of the numbers below the last one, without ANY. |
| `LinkNames.FirstNames` | link-grammar/dict-atomese/link-names.cc:60-76 | The names of 0, 1, 25, 26, 27, 701 and 702: A, B, Z, AA, AB, ZZ, AAA. |
| `LinkNames.CallersAreTold` | link-grammar/dict-atomese/link-names.cc:97-138 | A thread that finds or has bound a name tells it for its pair and is idle again, with the lock free. |
| `LinkNames.AnswersUnique` | link-grammar/dict-atomese/link-names.cc:97-138 | In every interleaving: callers are told the same name for the same pair, different names for different pairs, never ANY. |
| `LinkNames.BondsUnique` | link-grammar/dict-atomese/link-names.cc:97-138 | In every interleaving: a pair has at most one name, and no two pairs share one. |
| `LinkNames.OneHolder` | link-grammar/dict-atomese/link-names.cc:114 | At most one thread holds the lock, from locking to unlocking. |
| `MemoryPool.AlignFacts` | link-grammar/memory-pool.c:71-72 | Aligning rounds up to the next multiple. |
| `MemoryPool.Pool.constructor` | link-grammar/memory-pool.c:51-93 | Below 64 bytes an aligned element size is the least power of two not below the size, from 64 on the next multiple of 8; the data size is the next multiple of 8; there is no block. |
| `MemoryPool.Pool.NextBlock` | link-grammar/memory-pool.c:168-201 | The next chained block if there is one, else a new one at the end of the chain; zeroed if required; earlier blocks untouched. |
| `MemoryPool.Pool.AllocVec` | link-grammar/memory-pool.c:136-211 | A fresh range, inside the data, apart from all issued since the last reuse, zero if required; no new block while a chained one is left; issued bytes unchanged. |
| `MemoryPool.Pool.NoCommonByte` | link-grammar/memory-pool.c:136-211 | No byte is issued twice between two reuses. |
| `MemoryPool.Pool.Write` | link-grammar/memory-pool.c:136-211 | Users writing to what they were issued cannot break the pool. |
| `MemoryPool.Pool.Reuse` | link-grammar/memory-pool.c:219-230 | Starts over with the first block; no block is lost. |
| `MemoryPool.Pool.PoolNext` | link-grammar/memory-pool.h:126-164 | For single elements the traversal yields what was issued, in order, then NULL. |
| `MemoryPool.TraversalExactly` | link-grammar/memory-pool.h:150-156 | It does so if and only if the data has no padding after its last whole element or all elements are in the first block. |
| `MemoryPool.PaddedExample` | link-grammar/memory-pool.h:150-156 | Unaligned 12-byte elements, three to a block: after the third the traversal steps into the padding, not to the fourth. |
| `MemoryPool.AlignedNoPadding` | link-grammar/memory-pool.c:25-39 | Pools with aligned elements never have such padding. |
| `CostParser.StrToCost` | link-grammar/utilities.c:754-843 | The scan accepts and computes as specified; every table position used is within 0 to 5. |
| `CostParser.AcceptsExactly` | link-grammar/utilities.c:735-752 | Accepted are exactly: optional sign, zeros, at most two further digits, optional point and digits, at least one digit. |
| `CostParser.ResultIsValue` | link-grammar/utilities.c:735-752 | The result is the decimal value cut off after four fractional digits. |
| `CostParser.ReadPrinted` | link-grammar/utilities.c:754-843 | Reading a printed multiple of 0.0001 between -99.9999 and 99.9999 gives it back. |

## Left out

- Packers.Packer.PackConnectors: originals and packed block are one array of cells, the originals first; the linked list of disjuncts of a word is a sequence, and the bookkeeping buffers (stamps, counts, tracon list) are sequence-valued fields, so aliasing between them and the cells is not modelled.
- TraconSets.TraconSet.FindPlace: where the code's loop has no bound, the model gives up after n * 2^31 collisions, when by `VisitedEarly` no further slot can be visited.
- TraconSets.TrappedSize: at the fifth and sixth size it is not shown that the slots visited after the sum has wrapped lead every search to an end.
- LongSearches.LongSearchExists: gives a table in order, not a dictionary and a sentence that fill it; its connector numbers are larger than those of a dictionary.
- TraconSets.TraconSet.GrowTable: running out of listed sizes gives a failure flag, where the code would read past the end of its list.
- PackingSharing.SharedExactly: for sentences whose disjuncts come in word order, as packing goes through them.
- SentenceBounds.ParsingKeepsBounds: pruning itself is not modelled; its changes of word bounds and its choice of disjuncts are arbitrary here.
- PackingTheorems.UcCountsExact: states the counts for word numbers below 255, which is what the sentence length limit guarantees.
- ConnectorMatch.EncodeLc: at most ten subscript characters. Nothing in the source enforces this: the dictionary reader does not check the length and `link-grammar/connectors.c:271-277` only warns. From the eleventh character on the source shifts a 64-bit word by 70 bits or more, which C leaves undefined.
- ConnectorMatch.CalculateConnectorInfo: at most ten subscript characters, as for EncodeLc.
- ConnectorMatch.DescriptorsRefineNames: names without underscore; `AgreeExactly` says what underscores change.
- LengthLimits.SetCondescLengthLimit: flat definitions without wildcards; nested definition expressions and prefix wildcards depend on table order.
- DuplicateTable.EliminateDuplicateDisjuncts: the mode for sentence generation, which keeps categories in a union with the cost, is not modelled; gword lists are sets.
- MemoryPool.Pool.AllocVec: blocks are numbered instead of having addresses, so the alignment of the first byte of a block is not modelled; the link word is a field beside the data.
- LinkNames.AnswersUnique: no external storage; the last number is unbounded.
- ConTables.ConTable.Add: a string is its own identity, as interning guarantees; descriptor pools and clearing the table for reuse are not modelled.
- String sets and string ids, the fake pool allocator and per-element freeing.
- The dialect cache and the reader of dialect files: only applying a table is modelled.
- Length limits when linking, the parser, the pruner, the tokenizer, post-processing, dictionary reading, storage of link numbers, language bindings and all input and output.
