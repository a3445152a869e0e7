# Verified model of the formula index and its query engines

MathWebSearch stores every Content MathML subexpression as a preorder sequence of tokens. Each
token carries its arity, so no sequence is a proper prefix of another, and the sequences form a
trie whose leaves count the formulae stored under them. This project models how that trie is
built, frozen to a flat sector, walked and searched, together with the parts that feed it and
read from it, and proves what each of them promises.

The model follows the pipeline.

* **Reading and encoding.** `HarvestParsers` is the state machine over element events; `Harvests`
  says what a document means, `HarvestDocuments` the same over its elements and attributes.
  `IdDictionaries` numbers meanings, `ExpressionEncoders` turns an expression into tokens and
  renames identifiers, `CiRenaming` and `AlphaEncoding` say which expressions that identifies, and
  `Formulae` says it over tags, texts and children.
* **Building.** `VectorMaps` and `TmpIndexes` are the in-memory trie on the heap, seen as the value
  type of `Tries`; `IndexBuilders` enters an expression with all its subexpressions and keeps the
  hit counts in step with the formula database.
* **Freezing.** `Exports` is the writer driven by the hooks of a walk, `SectorLayout` the bytes it
  leaves behind, `Checksums` the check that guards them, `Sectors` and `SectorReadBack` the reader,
  `SectorSize` the size announced beforehand, `FrozenIndex` the comparison of both copies.
* **Walking and searching.** `IndexIterators` is the resumable walk, `Walks` the same as a value.
  `SearchContexts` is the backtracking search, `SearchSpec` and `Queries` what it must find,
  `Answers` the page of answers, `WrongPages` the pages that wrap, `IndexedSearch` the statement
  about an index that was built here.
* **The whole way.** `QueryIds` says when an encoded query is read as it was meant,
  `ExpressionInstances` compares instances of expressions with instances of codes, `Libraries` says
  what a run of harvests leaves in the index, and `ExpressionSearch` joins encoder, builder and
  search: which harvested expressions a query expression is answered with; `FormulaSearch` says it
  over tags, texts and children. `HarvestQueries` is the handler that harvests, answers queries from
  what it has harvested, and writes the index out. `DocumentQueries` begins with the harvest
  document, and `HarvestAnalytics` is the analysis of what was harvested.
* **Further engines.** `SchemaEngines` truncates formulae, groups them and rebuilds query trees,
  `RelativeSchemas` says what relative cut-offs cost, `DecodedExpressions` what is shown of an
  expression, and `SchemaQueries` is the handler of schema queries; `Engines` is the experimental engine,
  `EngineCompleteness` says which answers it finds, `InstanceNotions` that both engines look for the
  same; `Analytics` rebuilds formulae from the index.

Expressions are compared as they stand in the dictionary (`ExpressionInstances.Stored`): with
renaming, a name is its number among the names of the whole expression it occurs in. As long as no
tag contains a '#', that is comparing tags, texts and children (`Formulae.StoredIsFormula`,
`Formulae.InstancesAreOfFormulae`), and the results about queries, schemata and the analysis are
stated that way too.

Conventions. `Index` and `Node` in `Accessors` stand for the template argument of the source: the
in-memory trie or the exported sector. Ghost values mirror the heap (a node for every path of the
trie, the walk a stack stands for, the terms a count stands for). Integer widths are written out
where the source can wrap or cut: the pagination sums, the bit-fields of leaves, the 24-bit ids.

Premises, stated once. Indexed formulae are ground, because the encoder gives variables arity 1
(src/mws/index/ExpressionEncoder.cpp:80-94) and they would not form prefix codes. An index that is
searched or exported is not empty. Query variables and ranges have no children. A sector stays
below 2^34 bytes, because offsets are 32-bit counts of 4-byte units. The threshold for long nodes
is a parameter of at most 2^32, so that both node widths occur. A node has fewer children than
the index arithmetic of the binary searches can hold.

Where the code and its comments differ, the code is followed. The encoder's exceptions for the
names P and p compare a meaning that always starts with the tag, so they never apply
(`CiRenaming.RenamedIff`). The bounds of the anonymous variable ids are exclusive, and variable ids
are not kept in their bands; `QueryIds.ReadAsMeantIffInBands` says for which queries that is
harmless. The answer window wraps when offset plus size exceeds 32 bits;
`WrongPages.SearchesExactlyRight` says for which pages that is harmless. The loop of the
experimental engine reads the first entry of a node on every pass, so it finds at most one instance
and can miss the only one; `EngineCompleteness` says which instance it finds and when that is all.
A relative cut-off files formulae under a key that omits the cut-off;
`RelativeSchemas.StandsForIffSameCut` says when the schema of such a class fits a member. A page
without room still names the formula that goes on behind its offset (`Answers.IdOnEmptyPage`). The
experimental engine takes the id 128 for a variable but its table has 128 places, so such a query
reads and writes one place past the table; the model leaves that id out.

## Model

| member | source | states |
|---|---|---|
| Terms.CodeIffTerm | src/mws/query/SchemaEngine.cpp:176-197 | a token sequence is the preorder of one term exactly when counting arities says so |
| Terms.CodePrefixUnique | src/mws/query/SchemaEngine.cpp:176-197 | codes are prefix-free: a code at the front of a sequence is the only one there |
| Terms.PreorderUnique | src/mws/query/SchemaEngine.cpp:176-197 | a code is the preorder of one term only, also when something follows |
| Tokens.MemcmpIsRankOrder | src/mws/types/VectorMap.hpp:42-46 | comparing the packed bytes is one total order on tokens |
| Tokens.PackedBytes | src/mws/index/encoded_token.h:74-78 | the arity lies in the first byte, the low byte of the id in the second |
| VectorMaps.FindIndex | src/mws/types/VectorMap.hpp:136-155 | the binary search finds the key or tells its absence |
| VectorMaps.VectorMap.Insert | src/mws/types/VectorMap.hpp:100-128 | append and bubble down keeps the keys strictly sorted and refines insertion into a finite map, leaving a present key alone |
| VectorMaps.VectorMap.Index | src/mws/types/VectorMap.hpp:89-98 | lookup that inserts a default refines the same finite map |
| Accessors.InodeGetChild | src/mws/index/index.h:201-243 | the binary search over packed entries, short or long, finds the offset of the key, and zero exactly when it is absent |
| Accessors.GetChild | src/mws/index/IndexAccessor.hpp:110-132 | both kinds of index give the same child, or its absence, as the trie they show |
| Accessors.GetNode | src/mws/index/IndexAccessor.hpp:89-108 | the node behind an entry shows the subtrie below that entry |
| Tries.LeavesExact | src/mws/index/IndexIterator.hpp:64-85 | the leaves of an index are exactly the paths that end in a leaf, in increasing order of keys, and each path is one code |
| Tries.SpotsComplete | src/mws/index/IndexIterator.hpp:64-85 | every place that is reached by a given number of codes is enumerated |
| Tries.LeavesInStages | src/mws/query/SearchContext.cpp:314-360 | enumerating leaves by way of the places behind one term gives the same leaves in the same order |
| IndexIterators.IndexIterator.Next | src/mws/index/IndexIterator.hpp:64-117 | each call returns the next place behind one complete term and none when the walk is over; the hook calls are the next stretch of the Euler tour, lead from the old stack to the new one, and the stack is empty at the end |
| Walks.PushStep | src/mws/index/IndexIterator.hpp:98-102 | going to the first child keeps the places and moves still to come, and the open count is one plus the sum of arity minus one along the path |
| Walks.AdvanceStep | src/mws/index/IndexIterator.hpp:110-117 | going to the next sibling continues with exactly the rest of places and moves |
| TmpIndexes.TmpIndex.InsertData | src/mws/index/TmpIndex.cpp:77-100 | the leaf paths afterwards are those before and the inserted code; other leaves keep id and hits, a new leaf gets the next id, a known code keeps its leaf and changes nothing, and no leaf ever becomes an inner node |
| TmpIndexes.TmpIndex.Read | src/mws/index/TmpIndexAccessor.hpp:46-74 | what the accessors see from the root over the nodes is the tree |
| TmpIndexes.TmpIndex.CountSolution | src/mws/index/IndexBuilder.cpp:109-116 | one leaf counts one hit more and everything else stays |
| Grafts.GraftDescend | src/mws/index/TmpIndex.cpp:83-97 | adding an edge adds exactly the paths through it and keeps every other path |
| Grafts.GrowLeaf | src/mws/index/TmpIndex.cpp:92-97 | the new leaf makes the unfinished trie a well-formed index again |
| Exports.Exporter.ExportToMemsector | src/mws/index/TmpIndex.cpp:145-185 | the file is the layout of the tree behind a header with its size, checksum and root offset, and the stack of the hooks ends empty |
| Exports.MemsectorWriter.Write | src/mws/index/memsector.c:82-89 | after every write the running checksum is that of all bytes behind the header |
| Checksums.CrcConcat | third_party/common/crc32/crc32.c:92-104 | a checksum computed piece by piece is that of the whole |
| Checksums.CheckValue | third_party/common/crc32/crc32.c:92-104 | the digits 1 to 9 have the customary check value |
| Checksums.ChangedByteShows | third_party/common/crc32/crc32.c:92-104 | changing one byte anywhere changes the checksum |
| FrozenIndex.ExportIsIntact | src/mws/index/memsector.c:100-135 | magic number, version, size and checksum of an exported sector pass the checks of opening it |
| FrozenIndex.MemsectorLoad | src/mws/index/memsector.c:100-135 | a sector is opened exactly when magic number, version and checksum agree |
| FrozenIndex.IntactBegins | src/mws/index/memsector.c:109-122 | a sector that is opened begins with the eight bytes of the magic number and the version |
| FrozenIndex.ChangedByteIsFound | src/mws/index/memsector.c:123-127 | a sector in which one byte of the index was changed is not opened |
| Exports.HeaderIs | src/mws/index/memsector.h:60-67 | the header has magic number, version, size, checksum and root offset in this order, the first two as written bytes |
| SectorLayout.OneFormulaWritten | src/mws/index/index.h:118-193 | the bytes of an index of one formula, with a short and with a long root |
| Exports.TourWrites | src/mws/index/TmpIndex.cpp:148-180 | the hooks, fed with the Euler tour of a node's children, write each subtree once and leave the children's offsets on the stack |
| Exports.MemsectorWriter.WriteChildrenOffsets | src/mws/index/TmpIndex.cpp:102-118 | the node written after its children has their relative offsets, none of them zero |
| SectorLayout.WrittenAligned | src/mws/index/index.h:118-193 | sizes and addresses are multiples of 4 and a node lies inside what is written for its tree |
| SectorLayout.OffsetsIncrease | src/mws/index/TmpIndex.cpp:157-177 | child offsets strictly increase and lie before the parent, so the first child is the furthest one |
| Sectors.TokenRoundTrip | src/mws/index/encoded_token.h:75-78 | the packed bytes of a token give the token back |
| SectorReadBack.ReadBack | src/mws/index/IndexAccessor.hpp:64-143 | reading at the address of a written tree gives the tree, with leaf fields cut to their bit-fields, for any mix of short and long nodes |
| SectorReadBack.TruncatedIffFieldsFit | src/mws/index/index.h:178-193 | cutting the leaf fields loses nothing exactly when all of them fit |
| FrozenIndex.ExportIsFaithful | src/mws/index/TmpIndex.cpp:145-185 | following the root offset of an export gives the same tree if and only if all leaf fields fit |
| FrozenIndex.SearchBoth | src/mws/query/SearchContext.cpp:438-445 | the search over the exported index answers as the one over the original |
| SectorSize.AnnouncedIffShort | src/mws/index/TmpIndex.cpp:120-143 | the size announced is the size written if and only if no node is long |
| SectorSize.AnnouncedIsRight | src/mws/index/index.h:125-139 | at the threshold of the source the size announced is the size written for every sector of at most 2^34 bytes |
| SectorSize.ComputeMemsectorSize | src/mws/index/TmpIndex.cpp:120-143 | the walk with its hook adds up the sizes of all nodes as short nodes |
| Queries.AcceptsIffInstance | src/mws/query/SearchContext.cpp:314-360 | matching token by token with variables bound at their first occurrence accepts exactly the instances of the query |
| SearchContexts.SearchContext.constructor | src/mws/query/SearchContext.cpp:223-266 | specials are numbered by first occurrence, anonymous variables and ranges are never shared, and backtrack points are where specials first occur |
| Backtracking.QvarCtxt.Solve | src/mws/query/SearchContext.cpp:87-101 | a variable starts with the first of the places behind one term and holds all others |
| Backtracking.QvarCtxt.NextSol | src/mws/query/SearchContext.cpp:103-112 | the next place, or unsolved again when none is left |
| Backtracking.RangeCtxt.FirstValid | src/mws/query/SearchContext.cpp:154-178 | of the children from a position on, exactly the childless numbers within the bounds are offered, in order |
| SearchSpec.RunVisitsMatches | src/mws/query/SearchContext.cpp:314-427 | the run of the search visits the leaves whose path is an instance of the query, each once, in trie order |
| SearchContexts.SearchContext.TakeTurn | src/mws/query/SearchContext.cpp:314-427 | one turn of the loop keeps the invariant of contexts, bindings and current node and takes exactly one turn off the run still to be made |
| SearchContexts.SearchContext.Backtrack | src/mws/query/SearchContext.cpp:410-426 | backtracking resumes at the last special with an untried binding, later contexts being unsolved and empty |
| SearchContexts.SearchContext.GetResult | src/mws/query/SearchContext.cpp:268-435 | for every index and well-formed query the result accounts for exactly the matching leaves in trie order |
| Answers.PageIsSlice | src/mws/query/SearchContext.cpp:304-404 | unless offset plus size wraps, the answers are the requested slice of all entries, the total is the number of hits cut at the maximum, and the ids are those of leaves with hits on the page; without entries there are no answers, every formula counts once and the ids are those of the slice of the matching formulae; without ids there are none |
| Answers.IdsOfAnswers | src/mws/query/SearchContext.cpp:369-404 | with entries the ids on a page with room are those of the formulae that have an entry on it |
| Answers.IdOnEmptyPage | src/mws/query/SearchContext.cpp:369-404 | on a page without room they are those of formulae that begin before its offset and the maximum and go on behind the offset |
| Answers.SafePageIs | src/mws/query/SearchContext.cpp:304-312 | a page is safe from wrap-around exactly by four comparisons of its numbers |
| Answers.PagesExactlyRight | src/mws/query/SearchContext.cpp:304-404 | the page is the requested slice for every list of visited leaves exactly when it is safe from wrap-around |
| WrongPages.SearchesExactlyRight | src/mws/query/SearchContext.cpp:304-404 | the page is right for every query over every index with the invariants of the builder exactly when it is safe from wrap-around |
| WrongPages.UnsafePageHasIndex | src/mws/query/SearchContext.cpp:369-391 | for every other page an index of one or two formulae, each with hits, on which the query of a single variable is answered wrongly |
| Answers.MemFormulaDb.QueryFormula | src/mws/dbc/MemFormulaDb.cpp:47-61 | the callback gets the requested part of the entries of one formula, in order, up to the first entry at which it stops the query, and the result is -1 exactly if it stops it |
| IdDictionaries.IdDictionary.Put | src/common/types/IdDictionary.hpp:107-117 | keys are numbered by first occurrence, numbers stay, and no key gets the number of absence |
| IdDictionaries.IdDictionary.GetReverseLookupTable | src/common/types/IdDictionary.hpp:130-138 | the table gives each key at its number |
| IdDictionaries.SaveLoadExact | src/common/types/IdDictionary.hpp:67-105 | loading a saved dictionary gives the same numbers if and only if no key is empty or contains the terminator |
| IdDictionaries.LinesAre | src/common/types/IdDictionary.hpp:67-91 | reading splits the text at zero bytes, takes an unterminated rest too and leaves empty keys out |
| IdDictionaries.SavedTwo | src/common/types/IdDictionary.hpp:93-105 | a zero byte is written behind every key |
| Numberings.NumbersArePattern | src/mws/index/ExpressionEncoder.cpp:145-154 | numbering by first occurrence records exactly which places hold equal elements |
| ExpressionEncoders.ExpressionEncoder.Encode | src/mws/index/ExpressionEncoder.cpp:63-129 | the tokens, aliases, dictionary entries and variable ids of an expression in preorder; failure exactly for too many children or an unknown meaning, and then the names known are those before the element that is too wide |
| ExpressionEncoders.TokenIds | src/mws/index/encoded_token.h:48-59 | within the bands, names have ids from 2 on, anonymous variables from 33, ranges from 129 and constants from 162; a variable is called by its name attribute or else its text, and variables and ranges get arity 1 |
| ExpressionEncoders.ExpressionEncoder.Translate | src/mws/index/ExpressionEncoder.cpp:145-152 | a renamed identifier keeps its alias, a new one gets the next |
| CiRenaming.AlphaIsPattern | src/mws/index/ExpressionEncoder.cpp:131-155 | equality up to a one-to-one exchange of names is equality of frames and of the pattern of names in preorder |
| Formulae.MeaningIsText | src/mws/types/CmmlToken.cpp:271-279 | meanings are equal exactly when tags and texts are, those of mtext apart |
| Formulae.StoredIsFormula | src/mws/index/ExpressionEncoder.cpp:104-155 | two expressions stand alike in the dictionary exactly when their elements have equal tags, texts and children, short names by their numbers |
| Formulae.NumberByOccurrence | src/mws/index/ExpressionEncoder.cpp:145-154 | the number of a short name counts the different ones before its first occurrence, and itself |
| Formulae.AlphaIsExchange | src/mws/index/ExpressionEncoder.cpp:131-155 | equality up to renamed names is equality of tags, texts and children up to a one-to-one exchange of short names |
| AlphaEncoding.EncodingIsAlpha | src/mws/index/ExpressionEncoder.cpp:63-155 | two ground expressions encoded by fresh encoders over one dictionary get the same code if and only if they are equal up to an exchange of renamed names |
| Formulae.EncodeBoth | src/mws/index/ExpressionEncoder.cpp:63-155 | the same for the encoders as they run, as long as the ids fit into 24 bits, stated over tags, texts and children; without renaming equal codes mean that nothing differs |
| Expressions.PushKids | src/mws/types/CmmlToken.cpp:312-327 | pushing children in reverse makes the stack visit them first, in order |
| IndexBuilders.IndexBuilder.IndexContentMath | src/mws/index/IndexBuilder.cpp:92-120 | every distinct code of a subexpression gets one leaf, one hit and one database entry with the given crawl id and xml id and the xpath of its first occurrence, nothing else changes, the result is the number of distinct codes, each leaf counts its entries before and after, and names are numbered by occurrence, those of elements too wide to be encoded apart |
| IndexBuilders.FlatIsCode | src/mws/types/CmmlToken.cpp:312-327 | tokens with the child counts of a walk over an expression form one code |
| IndexedSearch.SearchOfIndexed | src/mws/query/SearchContext.cpp:361-404 | over an index that conserves hits, the total and the page come from exactly the entries recorded for indexed instances of the query |
| CiRenaming.RenamedIff | src/mws/index/ExpressionEncoder.cpp:131-144 | a ci element is renamed exactly when its name has at most one character and it is not the head of an application; P and p are no exceptions |
| QueryIds.ReadAsMeantIffInBands | src/mws/query/SearchContext.cpp:233-262 | in an encoded query, variables, ranges and constants are told apart and two variables are one special exactly for equal non-empty names, if and only if there are at most 127 names, 96 anonymous variables and 32 ranges, not both 63 names and 32 anonymous variables, and no repeated name has an anonymous id |
| QueryIds.FewNamesInBands | src/mws/index/encoded_token.h:48-59 | up to 31 names, 96 anonymous variables and 32 ranges are safe |
| ExpressionInstances.ReadIsShaped | src/mws/query/SearchContext.cpp:223-266 | the prepared query of an expression whose variables and ranges have no children is one term, as the search requires |
| ExpressionInstances.BoundsOfRange | src/mws/index/ExpressionEncoder.cpp:94-104 | with an id for each range, the bounds collected under the ids are those of the ranges |
| ExpressionInstances.InstancesAgree | src/mws/query/SearchContext.cpp:314-360 | the code of a formula is an instance of the encoded query exactly when the formula is the query expression with equal names replaced by equal expressions and ranges by numbers within their bounds |
| Formulae.InstancesAreOfFormulae | src/mws/query/SearchContext.cpp:181-215 | such instances are those in terms of tags, texts and children: each named variable replaced by one formula, each range by a childless cn whose text is a number within the bounds |
| Libraries.EnterDoc | src/mws/index/IndexBuilder.cpp:92-120 | after each harvested expression the index holds exactly the codes of the subexpressions harvested so far, with names numbered by occurrence in their whole expression if they are renamed, each with one entry for each expression it occurs in: crawl id and xml id of the expression, xpath of the first subexpression with the code |
| Libraries.IndexedSnoc | src/mws/index/IndexBuilder.cpp:92-120 | the same from what the builder promises of one call, under a dictionary that grows |
| ExpressionSearch.MatchesAreExpected | src/mws/query/SearchContext.cpp:361-404 | the entries of all matches are, each as often, those of the distinct harvested subexpressions that are instances of the query expression |
| ExpressionSearch.UnanswerableIsNotThere | src/mws/daemon/HarvestQueryHandler.cpp:80-91 | a query that cannot be encoded has no instance among what was harvested |
| ExpressionSearch.HandleQuery | src/mws/daemon/HarvestQueryHandler.cpp:73-97 | encoding, preparing and searching answer with a page of exactly those entries and count all of them; without entries there are no answers, and the different instances are counted and their ids sliced; a query that cannot be encoded has no answers |
| FormulaSearch.ExpectedIs | src/mws/query/SearchContext.cpp:361-404 | the entries expected are, for each formula of a harvested expression that is an instance of the query, its crawl id, its xml id and the xpath where the formula stands first, stated over tags, texts and children |
| FormulaSearch.ShapesAreFormulae | src/mws/query/SearchContext.cpp:361-404 | the instances counted are the different formulae that are instances |
| HarvestQueries.LoadHarvest | src/mws/index/IndexBuilder.cpp:92-120 | a run over a list of expressions leaves exactly their subexpressions in the index |
| HarvestQueries.HarvestQueryHandler.constructor | src/mws/daemon/HarvestQueryHandler.cpp:63-69 | a new handler holds exactly what it was given to harvest |
| DocumentQueries.TreeStandsFor | src/mws/types/CmmlToken.cpp:60-112 | an expression has the name, the visible characters, the name attribute and the elements of its element in the document |
| DocumentQueries.PlacesNamed | src/mws/types/CmmlToken.cpp:54-69 | the xpath of every subexpression leads, counting elements, to the place in the document where it stands |
| DocumentQueries.XpathUnique | src/mws/types/CmmlToken.cpp:60-69 | different places have different xpaths |
| DocumentQueries.HarvestDocument | src/mws/index/IndexBuilder.cpp:206-232 | reading a harvest document and entering it leaves a handler that answers from exactly the elements in its expr children, in order, with their urls, the ids of their data and their places |
| HarvestQueries.HarvestQueryHandler.HandleQuery | src/mws/daemon/HarvestQueryHandler.cpp:73-97 | a query is answered from the nodes of the index with a page of the harvested subexpressions that are its instances, with the data of their expressions and their places, or with their number when entries are not asked for; both are stated over tags, texts and children too |
| HarvestQueries.WriteIndex | src/mws/index/IndexWriter.cpp:92-93 | the sector written for the nodes of the index can be opened and shows the same tree if and only if all leaf fields fit |
| SchemaEngines.CompleteExpression | src/mws/query/SchemaEngine.cpp:176-197 | skipping with the stack of counts stops behind one term |
| SchemaEngines.SchemaEngine.ReduceFormula | src/mws/query/SchemaEngine.cpp:123-174 | the explicit stack keeps exactly the tokens of the recursive truncation: children above the cut-off, and the first child of an apply |
| SchemaEngines.SchemaEngine.DecodeFormula | src/mws/query/SchemaEngine.cpp:228-325 | decoding a truncated formula trips no assertion and gives its schema tree |
| DecodedExpressions.NodeIsText | src/mws/query/SchemaEngine.cpp:327-348 | a meaning is read as the tag before its first separator and the text behind it; a token is an apply exactly when its tag begins so |
| DecodedExpressions.CleanTagIs | src/mws/types/CmmlToken.cpp:92-98 | the prefix m: goes, and other tags stay |
| DecodedExpressions.NoSpacesIs | src/mws/types/CmmlToken.cpp:105-112 | white space goes, and all else stays |
| DecodedExpressions.SchemaShows | src/mws/query/SchemaEngine.cpp:228-325 | the schema of the code of an expression shows the expression's own tags and texts above the cut-off and at first children of apply, and variables for the rest |
| DecodedExpressions.DeepSchemaIsExpression | src/mws/query/SchemaEngine.cpp:228-325 | a schema that is deep enough, and the tree of the whole code, have exactly the tags, texts and children of the expression that was encoded |
| DecodedExpressions.CutIsSame | src/mws/query/SchemaEngine.cpp:123-174 | two expressions have the same truncated term exactly when they agree in what is shown of them |
| Schemas.SchemaGeneralises | src/mws/query/SchemaEngine.cpp:228-325 | putting the skipped subterms back for the variables, left to right, rebuilds the tree |
| Schemas.QvarsNumbered | src/mws/query/SchemaEngine.cpp:258-322 | the variables of a schema are distinct and numbered from left to right, one for each skipped subterm |
| Schemas.ReducedDeterminesCut | src/mws/query/SchemaEngine.cpp:123-174 | the kept tokens are equal exactly when the truncated trees are |
| Schemas.SchemaMatchesClass | src/mws/query/SchemaEngine.cpp:61-121 | the schema of one formula matches every formula of its class |
| SchemaHashes.UnhashExpr | src/mws/query/SchemaEngine.cpp:199-226 | reading a hash gives back the tokens it was made from |
| SchemaHashes.HashInjective | src/mws/query/SchemaEngine.cpp:199-208 | hashes are equal exactly when the token sequences are |
| RelativeSchemas.StandsForIffSameCut | src/mws/query/SchemaEngine.cpp:61-121 | of two formulae with the same kept tokens, each with its own cut-off, the schema of one stands for the other if and only if their truncated trees are equal |
| RelativeSchemas.SameKeptTokensNoSchema | src/mws/query/SchemaEngine.cpp:69-96 | two formulae of depths 3 and 4 with the same kept tokens at cut-offs of their whole depths, where neither schema stands for the other |
| SchemaEngines.SchemaEngine.GetSchemata | src/mws/query/SchemaEngine.cpp:61-121 | with absolute or relative cut-offs each schema is that of the last formula of one whole class with the same kept tokens and of all others in it with its cut-off, no class occurs twice, bigger classes come first, only the smallest are dropped, and without a bound the classes cover all formulae |
| SchemaQueries.HandleQuery | src/mws/daemon/SchemaQueryHandler.cpp:61-108 | of the expressions of a schema query that can be encoded, each schema shows the tags, texts and children of its class; with an absolute cut-off the classes are exactly those of expressions that agree in what is shown; bigger classes come first, and without a bound every expression is covered |
| EngineSpec.SoundSolved | src/mws/query/engine.c:182-197 | replacing a solved variable by its tokens keeps answers sound |
| EngineSpec.SoundStep | src/mws/query/engine.c:303-365 | binding one more token to a variable keeps answers sound |
| Engines.QueryCtxt.ProcessQueryToken | src/mws/query/engine.c:165-270 | all leaves handed on are sound for the query on the stack; a call that goes on restores stack, node, solved flags and bindings; the stacks stay within 512 and 256 tokens |
| Engines.QueryCtxt.MatchVarToIndex | src/mws/query/engine.c:272-371 | the same while a variable is bound, including the variable being solved and the length of its binding |
| Engines.QueryEngineRun | src/mws/query/engine.c:119-163 | every leaf reported is an indexed instance; unless it is stopped without an answer, exactly the instance in which every variable's term takes first entries at its first occurrence is reported, the answer is complete if and only if all indexed instances are such, and it is for queries without variables and for an index of one formula; the number of reports is exact, also when the callback stops the run |
| EngineCompleteness.CountExactly | src/mws/query/engine.c:303-365 | the instance is reported once for each way through the entries of the nodes on its variables' terms: the product of their numbers of entries |
| EngineCompleteness.ReportedExactly | src/mws/query/engine.c:303-312 | a path is reported if and only if it is an indexed instance whose variables take first entries |
| EngineCompleteness.AnsweredIffLeading | src/mws/query/engine.c:165-371 | an index and a query are answered completely if and only if that holds of every indexed instance |
| EngineCompleteness.CompleteIffNoVariable | src/mws/query/engine.c:165-371 | a query is answered completely on every index if and only if it has no variable |
| EngineCompleteness.CompleteIffOneFormula | src/mws/query/engine.c:165-371 | an index answers every query completely if and only if it holds one formula |
| EngineCompleteness.NotBothFound | src/mws/query/engine.c:303-312 | with two instances of the query in the index the answer is not complete |
| EngineCompleteness.OnlyInstanceMissed | src/mws/query/engine.c:303-312 | of f(a, b) and f(b, a) the query f(x, a) has one instance, and nothing is reported |
| EngineCompleteness.SecondLeafMissed | src/mws/query/engine.c:303-312 | a concrete index of two leaves and a query for which the second is missed |
| InstanceNotions.InstancesAlike | src/mws/query/SearchContext.cpp:223-266 | both engines mean the same by an instance of an encoded query without ranges whose anonymous ids are not repeated |
| CmmlTokenBuilders.CmmlTokenBuilder.PushToken | src/mws/analytics/analytics.cpp:138-162 | the new node becomes the next child of the node that waits for one, as the path demands |
| CmmlTokenBuilders.CmmlTokenBuilder.PopToken | src/mws/analytics/analytics.cpp:164-181 | the last push is taken back exactly: same nodes, same children, same stacks, which the path determines |
| TokenTrees.ValueIsTree | src/mws/analytics/analytics.cpp:138-162 | the tree that a whole code builds is the tree of its term |
| Analytics.Follow | src/mws/analytics/analytics.cpp:84-91 | the builder's path is that of the walk after any stretch of hook calls |
| Analytics.Analyze | src/mws/analytics/analytics.cpp:78-107 | each formula of the index is handed on once, complete, in trie order and with its hits, until the receiver stops |
| HarvestAnalytics.AnalyzeHarvest | src/mws/analytics/analytics.cpp:78-107 | of an index of harvested expressions every formula is handed on once, with exactly its tags, texts and children and the number of harvested expressions it occurs in, until the receiver stops |
| HarvestParsers.HarvestParser.StartElement | src/mws/xmlparser/processMwsHarvest.cpp:195-327 | the flat state variables step as the stack of open elements they stand for |
| HarvestParsers.HarvestParser.EndElement | src/mws/xmlparser/processMwsHarvest.cpp:337-400 | the same for the end of an element, including what is handed to the processor |
| HarvestParsers.HarvestParser.Characters | src/mws/xmlparser/processMwsHarvest.cpp:402-419 | the same for text, without white space in tokens |
| Harvests.ReadsChild | src/mws/xmlparser/processMwsHarvest.cpp:195-400 | after each child of the harvest the machine is back where it was and has handed on what that child contributes |
| Harvests.Builds | src/mws/xmlparser/processMwsHarvest.cpp:297-312 | the events of an element build its token tree and attach it to its parent |
| Harvests.ReadsDocument | src/mws/xmlparser/processMwsHarvest.cpp:195-400 | a whole document makes the machine hand on what its children contribute, one after the other, and leaves it in the initial state |
| Harvests.EventsDetermine | src/mws/xmlparser/processMwsHarvest.cpp:315-323 | the events copied of a data element tell its content |
| HarvestDocuments.AttrValueIs | src/mws/xmlparser/processMwsHarvest.cpp:227-245 | of attributes of an expr or data element with the same name the last one counts |
| HarvestDocuments.AttrMapIs | src/mws/types/CmmlToken.cpp:100-103 | of attributes of a token with the same name the first one is kept |
| HarvestDocuments.TreeIs | src/mws/xmlparser/processMwsHarvest.cpp:297-312 | the tree built of an element has its name without the prefix, its visible characters, its attributes and the trees of its elements, in order |
| HarvestDocuments.MeaningAnswers | src/mws/xmlparser/processMwsHarvest.cpp:195-400 | what a document means is, for each element directly in an expr child, in document order, its tree, the url of its expr and the id given last to an earlier data element with the expr's id, the sum of the counts that are no failures, and each data element with its content |
| HarvestParsers.LoadHarvest | src/mws/xmlparser/processMwsHarvest.cpp:460-510 | the parser as it runs hands on exactly that, and nothing of a document that is no harvest |

## Left out

- HTTP daemons, sockets, threads, flags, signals, files and memory mapping: input and output only; a file is a sequence of bytes, at least as long as its header says.
- The XML library, LevelDB and the crawler: documents are given as trees of elements, the copy of a data element is the list of calls made to the writer, and the formula database is the in-memory one.
- Response formatters, logging, timing fields, memory release.
- Equality, size and depth of token trees, the recursion over harvest directories and its statistics: easy or output only.
- `Analytics.Analyze`: the meanings in the index must contain a separator, as the source asserts; aliases of renamed identifiers do not.
- `HarvestAnalytics.AnalyzeHarvest`: for the same reason names are not renamed.
- Variables stored in the index, and with them `match_var_to_query` and `match_var_to_stack`: the index does not store variables as prefix codes; `Engines.InodeGetMaxVar` finds none in a ground index.
- `Engines.QueryEngineRun`: a variable with id 128 is left out, for which the source overruns its table.
- `SchemaEngines.SchemaEngine.GetSchemata`: the relative cut-offs are given as numbers; the rounding of the product they are computed from is not modelled.
- `Exports.Exporter.ExportToMemsector`: the walk reads the tree that `TmpIndexes.TmpIndex.Read` takes from the nodes, not the nodes themselves.
- `Answers.PagesExactlyRight`: is about lists of leaves; `WrongPages.SearchesExactlyRight` is the statement about indices and queries.
- Floating point: range bounds are real numbers, a function of the element, and the number that the text of a `cn` is comes from a function given with the query.
- `getSubstitutions` and the names and paths of variables that an encoder collects beside the tokens.
- `HarvestQueries.HarvestQueryHandler.HandleQuery`: an index with nothing in it is not searched.
- `SchemaQueries.HandleQuery`: the expressions have no variables and ranges, and the relative cut-off of an expression is a function of it.
- `DecodedExpressions.DecoderOf`: names for the ids of variables and ranges are not modelled; ground codes have none.
- `SearchContexts.SearchContext.GetResult`: the in-memory index is searched as the tree that `TmpIndexes.TmpIndex.Read` takes from its nodes.
- `SchemaEngines.SchemaEngine.DecodeFormula`: the tree under construction is a stack of open nodes instead of nodes with parent pointers, and the paths recorded in tokens are not built; the query variable element with text "x" and n is written Qvar(n).
- `HarvestParsers.HarvestParser.EndElement`: the token under construction is a stack of open tokens instead of nodes with parent pointers; error callbacks of the XML library are not modelled.
- `TmpIndexes.TmpIndex.InsertData`: the counter of leaf ids belongs to one index here, while the source shares it between indexes; ids and hits are unbounded, where the source has 32 bits.
- `Engines.QueryCtxt.ProcessQueryToken`: bindings are sequences with a bound on their length instead of arrays with a count; a variable with id 128, for which the source overruns its table of 128 places, is left out.
- `Engines.QueryCtxt.MatchVarToIndex`: the same id is left out.
- `SchemaClasses.SortBySize`: stands for the library's sort; the order of the hash table is left open.
