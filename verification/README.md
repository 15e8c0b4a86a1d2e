# RWhois server: verified model

This project models the logic of an RWhois server (RFC 2167) in Dafny 4.11 and proves
properties of it. The repository holds a Rust server and the C reference server it was
ported from; both are modelled, file by file, in the form of the code: loops, buffers,
linked nodes and objects as methods and classes, each held to a specification function
about which the properties are proved. `dafny verify dfyconfig.toml` checks everything.

## Components

| files | what they model |
|---|---|
| `Text.dfy` | characters, runs, splitting, trimming, numerals |
| `IndexLine.dfy`, `IndexBuild.dfy` | lines of an index file and files made of them |
| `Bisection.dfy`, `LongLines.dfy` | the search by byte offset in a sorted index file, and the line length it needs |
| `DataFile.dfy`, `IndexScan.dfy`, `HitLimit.dfy`, `SearchEngine.dfy`, `WrittenSearch.dfy` | records in data files, the scan of an index, the hit list and its limit, and searches told by what was written |
| `Network.dfy`, `NetworkText.dfy`, `CidrSearch.dfy`, `CidrLimit.dfy` | networks, their keys, reading them, the search for containing networks, and a hit limit it loses |
| `Deletion.dfy`, `DeletionFailures.dfy`, `DeletionSearch.dfy` | deletion of a record in place, how it goes wrong, and searches through an old index |
| `QueryParser.dfy`, `QueryReader.dfy`, `QueryPrint.dfy`, `ClassLift.dfy` | the query grammar, the parser, printing, the class rewrite |
| `QueryMatrix.dfy`, `QueryBuilder.dfy` | the reference parser's OR-list of AND-lists |
| `Directory.dfy`, `SqlCompiler.dfy`, `SqlMeaning.dfy`, `SqlCorrect.dfy` | the in-memory directory, the compiler to SQL, the meaning of its output |
| `Codec.dfy`, `Response.dfy`, `ResponseRoundTrip.dfy`, `Banner.dfy` | the wire layer |
| `Connection.dfy`, `ConnectionRuns.dfy`, `ConnectionAnswers.dfy`, `ConnectionSettings.dfy`, `ConnectionTrace.dfy`, `ConnectionServer.dfy`, `ConnectionStream.dfy` | sessions, directives and whole connections |
| `AcceptLoop.dfy` | the accept loop, its semaphores and shutdown |
| `LinkedList.dfy` | the doubly linked list with a cursor |

Bytes are characters with the same code. Numbers are unbounded except where a width
matters: `u16` ports and codes, `u32` versions and the spawn counter, 8-bit address bytes.

## Where the code differs from what one would expect

- The backward refill of the line-start scan (ref/rwhoisd/mkdb/search_prim.c:551-567) steps back
  a whole block but resumes in its middle. Lines of more than 257 bytes can be jumped over,
  and then the bisection misses entries (`LongLines.LongLineIsMissed`). 257 is the largest
  bound for which it never does (`LongLines.BoundIsExact`); for a single scan `LineStart.ScanIsExact`
  gives the exact condition.
- An encoded index line with an empty value does not decode (`IndexLine.EncodeDecode`).
- A deletion goes wrong when a record has an empty line just before its separator, when the
  separator does not start with a dash, although `_NEW_` counts as a separator, when another line
  does start with one, and when overwriting a byte makes a separator. `DeletionFailures` has a text
  for each. `Deletion.CleanExactly` shows that the guard `Deletion.IsDeletable`, which looks at the
  lines of the record before anything is written, is the exact condition.
- The network search returns the code of its last matching scan only, so a hit limit reached at a
  longer prefix can be lost (`CidrLimit.LimitIsLost`). `CidrSearch.LimitIsReported` gives the exact condition
  in terms of the index and the records an unlimited search lists.
- An invalid search type leaves the network search with its own buffer as the search value of the query
  (`CidrSearch.SearchCidrIndexFile`).
- Lifting a class name in front of a text that starts with `and` or `or` drops that keyword, which
  changes the tree of the text (`ClassLift.LiftLosesKeyword`), or lets a text through that is an error
  alone. `ClassLift.LiftExactly` gives the texts for which it does neither.
- The trailing-input error of the query parser cannot occur (`QueryReader.Parser.ParseExpr`).
- The reference parser's matrix and the tree of src/query.rs differ in meaning as soon as an `and`
  follows an `or` (`QueryMatrix.AgreeExactly`).
- A `%` or `_` in a wildcard value is taken literally by the in-memory directory and as a wildcard
  by SQL (`SqlMeaning.AgreeExactly`). An unknown attribute is an error in SQL and no match in memory.
- `%info` and `%referral` without a body do not read back as block ends
  (`ResponseRoundTrip.EndBlockExactly`).
- With 2^32 connections or more, shutdown can return while one is being served
  (`AcceptLoop.WaitsExactly`). A connection task that panics never gives its drain permit, so shutdown
  does not return at all.
- The comment above the connection cap speaks of code 503; src/server.rs:327 sends 501.

## Model

| member | source | states |
|---|---|---|
| `IndexLine.CutFields` | ref/rwhoisd/common/misc.c:386-453 | the splitting loop, which writes NULs into its copy and records where arguments start, leaves exactly the fields of the list in the copy |
| `IndexLine.SplitList` | ref/rwhoisd/common/misc.c:386-453 | the arguments returned are the fields of the list: cut at separators, the last one taking the rest once the field limit is reached, no field behind a trailing separator |
| `IndexLine.DecodeIndexLine` | ref/rwhoisd/mkdb/index.c:556-585 | decodes a line of five fields and refuses every other line |
| `IndexLine.EncodeDecode` | ref/rwhoisd/mkdb/index.c:589-608 | decoding an encoded item gives the item back, separators in the value included, exactly when the value is not empty |
| `IndexLine.WrittenLineReadsBack` | ref/rwhoisd/mkdb/index.c:36-49 | a line as written to a file, read back through the line reader and decoded, is the item that was written |
| `IndexLine.DecodableIsLong` | ref/rwhoisd/mkdb/index.c:556-585 | a line that decodes has at least five bytes, so a midpoint on a newline never selects a line twice |
| `CStrings.CompareIsMonotone` | ref/rwhoisd/mkdb/search_prim.c:649-709 | down a list of values in `strcmp` order neither the full nor the prefix comparison with a query ever rises |
| `CStrings.StrcmpMeans` | ref/rwhoisd/mkdb/search_prim.c:649-709 | the order of the comparison is that of the first byte in which two texts differ, a text that ends being the smaller |
| `CStrings.AtoiReads` | ref/rwhoisd/mkdb/index.c:573-580 | the numbers of a line are read as `atoi` does: white space, one sign, digits, and whatever follows |
| `CStrings.CleanIsPlain` | ref/rwhoisd/common/misc.c:21-40 | a line that is read holds plain text only and no white space at its ends |
| `CStrings.CleanStopsAtNul` | ref/rwhoisd/common/misc.c:21-40 | a NUL ends what is read of a line |
| `CStrings.CleanDrops` | ref/rwhoisd/common/strutil.c:108-133 | control characters other than tabs are dropped wherever they stand in a line that is read |
| `CStrings.CleanTrims` | ref/rwhoisd/common/strutil.c:186-200 | white space at either end of a line that is read makes no difference |
| `IndexBuild.WrittenIsIndex` | ref/rwhoisd/mkdb/index.c:36-49 | items in order of value, written line by line, make a file that is terminated, decodable at every line and sorted, and whose lines are those items |
| `LineStart.Refill` | ref/rwhoisd/mkdb/search_prim.c:551-590 | loading the block before or behind the one held keeps what the scan will answer |
| `LineStart.Examine` | ref/rwhoisd/mkdb/search_prim.c:542-631 | one round of the scan answers, or comes strictly closer to the answer |
| `LineStart.ScanForBol` | ref/rwhoisd/mkdb/search_prim.c:494-634 | the block-wise scan computes the answer of the character-wise one, and leaves the position there |
| `LineStart.ScanIsExact` | ref/rwhoisd/mkdb/search_prim.c:494-634 | the scan finds the start of the line around an offset if and only if its block arithmetic does not jump over the newline before it |
| `Bisection.SearchCompareFalls` | ref/rwhoisd/mkdb/search_prim.c:649-709 | every comparison but the substring one falls along sorted values |
| `Bisection.RoundNarrows` | ref/rwhoisd/mkdb/search_prim.c:259-320 | a round of the bisection examines a line between its bounds, keeps the bounds truthful and narrows them |
| `Bisection.Bisect` | ref/rwhoisd/mkdb/search_prim.c:226-323 | the loop terminates with the first matching line, or -1 exactly when none matches, through the rounds of the code |
| `Bisection.SearchCompareMeans` | ref/rwhoisd/mkdb/search_prim.c:649-709 | a comparison is zero exactly for the values that equal the query, start with it, or hold it in any case, according to its type, and never for a negated type; its sign tells which of the two comes first |
| `Bisection.BinarySearch` | ref/rwhoisd/mkdb/search_prim.c:226-323 | on every sorted, terminated, decodable file with lines of at most 257 bytes: offset of the first line whose value equals, or starts with, the query, or -1 exactly when there is none |
| `LongLines.LongLineIsMissed` | ref/rwhoisd/mkdb/search_prim.c:551-567 | on a concrete index file whose longest line has 258 bytes the search ends in -1 although a line matches |
| `LongLines.BoundIsExact` | ref/rwhoisd/mkdb/search_prim.c:226-323 | for every bound: all searches of all index files with lines up to that bound find the first match if and only if the bound is at most 257 bytes |
| `Walking.FastIsFull` | ref/rwhoisd/mkdb/search_prim.c:330-486 | whatever a scan collects, stopping at the first mismatch from the first match on does what looking at every line does |
| `IndexScan.VisitorsAreScans` | ref/rwhoisd/mkdb/search_prim.c:379-484 | the two modes of the scan treat matching lines alike, and a mismatch changes nothing |
| `Text.UpperMeans` | ref/rwhoisd/common/strutil.c:321-340 | upper case is the same letters, none of them lower-case |
| `IndexScan.CheckTermsMeans` | ref/rwhoisd/mkdb/search_prim.c:116-158 | a record passes the AND list exactly when each term is satisfied by one of its pairs; upper-casing the values on the way changes no answer |
| `IndexScan.VisitAdds` | ref/rwhoisd/mkdb/search_prim.c:379-484 | a visit adds the hit of its line unless it is listed already, adds nothing else, counts what it adds and keeps to the hit limit |
| `IndexScan.WalkIsSound` | ref/rwhoisd/mkdb/search_prim.c:330-486 | however a scan ends, what it has appended are hits of the query |
| `IndexScan.WalkIsComplete` | ref/rwhoisd/mkdb/search_prim.c:330-486 | a scan that ends well has listed the hit of every line |
| `IndexScan.FullScanFinds` | ref/rwhoisd/mkdb/search_prim.c:330-486 | the list grows only by hits, and after success it holds every hit |
| `HitLimit.LimitedScan` | ref/rwhoisd/mkdb/search_prim.c:379-484 | against the same scan without a hit limit, from every list: the new records are the first of the other's, as many as there is room for; the limit is reported if and only if there are more; otherwise the two scans do not differ |
| `HitLimit.ReportsMissing` | ref/rwhoisd/mkdb/search_prim.c:379-484 | with every data file present, a scan reports the limit if and only if a record the query wants is missing from the list it leaves |
| `SearchEngine.Searcher.CheckHitListForHit` | ref/rwhoisd/mkdb/search_prim.c:57-88 | tells whether some listed record has the area, class, file and offset of the item |
| `SearchEngine.Searcher.FillOutRecord` | ref/rwhoisd/mkdb/search_prim.c:162-198 | fetches the record at the offset of an index item, leaving the status untouched when there is no such file |
| `SearchEngine.Searcher.ValidateAndList` | ref/rwhoisd/mkdb/search_prim.c:116-158 | the two loops compute the check of `CheckTermsMeans`, upper-casing in place |
| `SearchEngine.Searcher.VisitLine` | ref/rwhoisd/mkdb/search_prim.c:379-484 | the filters, the duplicate check, the fetch and the limit change list and counter as specified, with the verdict that ends or continues the scan |
| `SearchEngine.Searcher.FullScan` | ref/rwhoisd/mkdb/search_prim.c:330-486 | on a file of whole, decodable lines of up to 511 bytes the reading loop is the walk over the lines from its start position |
| `SearchEngine.Searcher.BinaryScan` | ref/rwhoisd/mkdb/search.c:119-128 | bisection and the scan that stops early leave the same records in the same order, the same counter and the same return code as a find-all scan from offset 0 |
| `SearchEngine.Searcher.SearchExactIndexFile` | ref/rwhoisd/mkdb/search.c:105-144 | whichever search type is asked for, the effect is that of the find-all scan; other types are refused without effect |
| `WrittenSearch.FirstWritten` | ref/rwhoisd/mkdb/search_prim.c:226-323 | on an index written from items, the bisection gives the offset of the first item whose value the query looks for, and -1 exactly if no item has one |
| `WrittenSearch.HitOfWritten` | ref/rwhoisd/mkdb/search_prim.c:162-198 | the hit of an index line is the record written at its offset, with its area, class, file, offset and attributes, exactly when the line is live, of an admitted attribute and a value looked for, and each ANDed term is satisfied |
| `WrittenSearch.WalkListsOnce` | ref/rwhoisd/mkdb/search_prim.c:57-88 | a scan lists no two records from the same place |
| `WrittenSearch.ScanOfWritten` | ref/rwhoisd/mkdb/search_prim.c:330-486 | a scan of a written index appends answers of the query, none twice, and all of them if it ends well, told by the items and the records as written |
| `WrittenSearch.SearchWritten` | ref/rwhoisd/mkdb/search.c:105-144 | the exact search, bisecting or not, does the same |
| `Network.MaskAddrToLen` | ref/rwhoisd/common/ip_network.c:94-119 | the in-place loop clears exactly the bits behind the given length |
| `Network.MaskBit` | ref/rwhoisd/common/ip_network.c:94-119 | a bit of a masked address is set if and only if it lies in the prefix and was set |
| `Network.MaskComposes` | ref/rwhoisd/common/ip_network.c:94-119 | masking to ever shorter lengths equals masking once to the last |
| `Network.CoversIsWidened` | ref/rwhoisd/common/ip_network.c:94-119 | the canonical networks that contain a network are exactly its widenings, one for each length |
| `Network.NiToAddrstring` | ref/rwhoisd/common/ip_network.c:348-389 | the formatting loop writes the address text |
| `Network.AddressShape` | ref/rwhoisd/common/ip_network.c:348-389 | an IPv4 address is written in three digits for each byte with dots between, an IPv6 address in two hexadecimal digits for each byte with a colon behind every second |
| `Network.KeyInjective` | ref/rwhoisd/common/ip_network.c:332-389 | two networks have the same key string if and only if they are equal, across families too |
| `Network.CompareAddr` | ref/rwhoisd/common/ip_network.c:125-149 | orders two addresses as numbers, equal only for equal addresses, and tells different families apart |
| `NetworkText.ParseNetwork` | ref/rwhoisd/common/ip_network.c:277-330 | a text read as a network is a canonical one: no bit is set behind its prefix |
| `NetworkText.AddressAlone` | ref/rwhoisd/common/ip_network.c:277-330 | a text without a slash is read as its address with all its bits, or as nothing exactly if it is empty or no address |
| `NetworkText.AddressAndLength` | ref/rwhoisd/common/ip_network.c:277-330 | with a slash it is nothing exactly if there is no address before the last one or the number behind is too large; a negative number stands for all bits; else it is the network of that length that contains the address |
| `NetworkText.ParsedContains` | ref/rwhoisd/common/ip_network.c:277-330 | the same for a length written as a decimal number |
| `NetworkText.KeyReadsBack` | ref/rwhoisd/common/ip_network.c:277-345 | a canonical network is read back from its key whenever its address is |
| `CidrSearch.SearchCidrIndexFile` | ref/rwhoisd/mkdb/search.c:184-255 | for every network the search value stands for, IPv4 or IPv6: one exact search per prefix length from its own down to 0, after which the search value is the one asked for; unparsable text changes nothing; another search type finds nothing and leaves the key of the network as the search value |
| `CidrSearch.WalkUp` | ref/rwhoisd/mkdb/search.c:212-252 | the loop that masks its address in place and swaps the search value makes the scans of the widenings of the network asked for |
| `CidrSearch.SpecificFirst` | ref/rwhoisd/mkdb/search.c:212-252 | the list is only appended to, and the prefix lengths of the new records never rise |
| `CidrSearch.MatchesAtLength` | ref/rwhoisd/mkdb/search.c:212-252 | a line matches at a length if and only if its network has that length and contains the one asked for |
| `CidrSearch.FoundIsCovering` | ref/rwhoisd/mkdb/search.c:212-252 | every record found belongs to a live line whose network contains the one asked for |
| `CidrSearch.CoveringIsFound` | ref/rwhoisd/mkdb/search.c:212-252 | if the scans end well, every live line whose network contains the one asked for has its record listed |
| `CidrSearch.LastCodeWins` | ref/rwhoisd/mkdb/search.c:224-229 | the return code is that of the shortest matching prefix length |
| `CidrSearch.LimitedSearch` | ref/rwhoisd/mkdb/search.c:212-252 | the search with a hit limit lists the first records of the search without one, as many as there is room for |
| `CidrSearch.LimitIsReported` | ref/rwhoisd/mkdb/search.c:212-252 | the limit is returned if and only if, of the network with the shortest matching prefix, some record is missing from the list of the unlimited search shortened to the room there is; otherwise success is |
| `CidrLimit.LimitIsLost` | ref/rwhoisd/mkdb/search.c:224-229 | a concrete index, scope and network: the scan for the network itself exceeds the limit, the search as a whole returns success |
| `DataFile.ReadAnonRecord` | ref/rwhoisd/mkdb/anon_record.c:58-150 | the reading loop yields the attributes up to the next separator or the end, and the status that goes with them |
| `DataFile.RecordReads` | ref/rwhoisd/mkdb/anon_record.c:58-150 | a record is read back as it was written: the attributes in order, remarks and other lines without one skipped, up to a separator of either kind or the end |
| `DataFile.LineCarries` | ref/rwhoisd/common/misc.c:65-109 | a written attribute line is read back as its tag and its datum, colons in the datum included |
| `Deletion.DataStore.DeleteDataEntry` | ref/rwhoisd/mkdb/delete.c:165-226 | overwrites the first byte of successive lines up to one that starts with a dash, and counts one record less |
| `Deletion.CleanExactly` | ref/rwhoisd/mkdb/delete.c:203-217 | a deletion is clean, that is the record reads as empty, ends where it ended, and no byte outside of it changes, if and only if a guard on the lines of the record holds |
| `Deletion.TombstoneReadsEmpty` | ref/rwhoisd/mkdb/delete.c:203-217 | under the guard, a deleted record read at its own offset yields REC_NULL or REC_EOF |
| `Deletion.KindOfReadsMarks` | ref/rwhoisd/mkdb/anon_record.c:97-146 | the line reader treats overwritten lines as the deletion theorems ask: they carry nothing, and glued to a line behind an empty one they do not separate |
| `Deletion.KindOfTombstone` | ref/rwhoisd/mkdb/anon_record.c:97-146 | a line whose first byte was overwritten never carries an attribute |
| `Deletion.DeletionElsewhere` | ref/rwhoisd/mkdb/delete.c:203-217 | what is read at any offset whose record does not overlap the deleted one is unchanged |
| `Deletion.DeletionIsLocal` | ref/rwhoisd/mkdb/delete.c:203-217 | deleting any record of a file keeps where that record ends and what is read at the offset of every other record |
| `DeletionFailures.EmptyLineExposesNextRecord` | ref/rwhoisd/mkdb/delete.c:203-217 | a text with an empty line before the separator: the separator is swallowed, and the deleted record reads as the next one |
| `DeletionFailures.OtherSeparatorIsOverrun` | ref/rwhoisd/mkdb/delete.c:203-217 | a text with the separator `_NEW_`: the deletion goes on into the next record, which is lost too |
| `DeletionFailures.DashLineStopsShort` | ref/rwhoisd/mkdb/delete.c:203-217 | a text with a line that starts with a dash and is no separator: what stands behind it is not deleted |
| `DeletionFailures.MarkedLineSeparates` | ref/rwhoisd/mkdb/delete.c:203-217 | a text with the line `xNEW_`, which the overwriting turns into a separator: the record now ends early |
| `DeletionFailures.EmptyLineInside` | ref/rwhoisd/mkdb/delete.c:203-217 | a text with an empty line inside a record, not before its separator: the deletion is clean |
| `DeletionSearch.FetchAfterDeletion` | ref/rwhoisd/mkdb/search_prim.c:162-198 | fetching through an old index item after a deletion: nothing for the deleted record, the same as before for the others and for items of missing files |
| `DeletionSearch.SearchAfterDeletion` | ref/rwhoisd/mkdb/search_prim.c:424-432 | for every hit limit: the old hits in the old order minus the deleted record start the list that a scan of the unchanged index returns after the deletion, and are all of it, with success, if the scan ended well before |
| `DeletionSearch.SearchDeleteSearch` | ref/rwhoisd/mkdb/delete.c:165-226 | a search, a deletion in the data file and the search again, bisecting or not: the second list is the first minus the record, as `SearchAfterDeletion` says |
| `DeletionSearch.UnlimitedSearchAfterDeletion` | ref/rwhoisd/mkdb/search_prim.c:330-486 | without a hit limit the scan always returns exactly the old hits minus the deleted record |
| `QueryReader.Parser.SkipBlanks` | src/query.rs:216-224 | advances over the longest run of blanks |
| `QueryReader.Parser.TryKeyword` | src/query.rs:228-251 | consumes a keyword that ends at a blank or the end, and the blanks behind it, or nothing |
| `QueryReader.Parser.ParseQueryString` | src/query.rs:354-388 | reads an unquoted value; only the outermost stars are wildcards, and nothing but stars is an error |
| `QueryReader.Parser.ParseQuotedValue` | src/query.rs:395-420 | reads everything up to the closing quote; unterminated and empty quotes are errors |
| `QueryReader.Parser.ParseTermHere` | src/query.rs:285-325 | reads attribute, operator and value, or rewinds and reads a bare value |
| `QueryReader.Parser.ParseOperand` | src/query.rs:258-281 | one round of the expression loop is one step of the grammar: an operator, written or implied, and a term |
| `QueryReader.Parser.ParseExpr` | src/query.rs:254-283 | the left-associative tree of the grammar, or its first error; success means that the whole text was read |
| `QueryReader.Parse` | src/query.rs:112-135 | the parser of a line is the grammar on the trimmed text; the check for trailing input never fires |
| `QueryPrint.TermAsWritten` | src/query.rs:285-421 | a parsed term is printed as it was written |
| `QueryPrint.ParsesExactly` | src/query.rs:112-421 | a text parses to a tree if and only if the tree is one of the grammar and the text is a writing of it: terms in order, keywords in any case or an implied `and`, any blanks, quotes; every other text is an error |
| `QueryPrint.WriteThenParse` | src/query.rs:228-283 | every tree of the grammar is read back from every way to lay it out: each keyword spelled in any case or left out, any blanks around it, any white space at the ends |
| `QueryPrint.ParsedIsTree` | src/query.rs:112-135 | whatever the text, what the parser returns is a tree of the grammar |
| `QueryPrint.ErrorsAreTold` | src/query.rs:285-421 | which error an empty text, a missing value, an open quote, empty quotes and bare stars lead to |
| `QueryPrint.DanglingIsTold` | src/query.rs:254-283 | an operator with nothing behind it is an unexpected end |
| `QueryPrint.PrintThenParse` | src/query.rs:112-135 | every tree that comes out of the parser is printed to a text that parses to the same tree, whatever values are spelled like keywords, starred or quoted |
| `ClassLift.SplitUndoesAttach` | src/query.rs:178-190 | splitting off the leading term undoes joining a term on the left of any tree |
| `ClassLift.ParseWithClass` | src/query.rs:254-283 | a class name in front of a query becomes the leftmost term of the tree of the rest |
| `ClassLift.LiftsClassExactly` | src/query.rs:142-190 | on every query the parser returns: a single term stays, a leading term becomes the class exactly if it is a bare value, neither starred nor quoted, that names one, and else nothing changes |
| `ClassLift.DropExactly` | src/query.rs:254-283 | dropping the leading boolean keyword of a text keeps its tree or its error if and only if a text that parses echoes the keyword, and one that does not is more than pairs of keywords |
| `ClassLift.LiftExactly` | src/query.rs:142-190 | lifting the class out of the parse of class and text yields what the text alone parses to, tree or error, if and only if that guard holds of the text |
| `ClassLift.LiftLosesKeyword` | src/query.rs:142-190 | `and x` parses to a conjunction; behind the class `widget` it is lifted to `x` alone |
| `ClassLift.LiftCommutes` | src/query.rs:142-190 | lifting the class out of the parse of class and text yields the class and the tree of the text; behind a leading boolean keyword, the tree of what follows it |
| `QueryMatrix.RowsAreRuns` | ref/rwhoisd/mkdb/y.tab.c:993-1038 | the matrix groups the terms, in order, into the maximal AND-runs |
| `QueryMatrix.SameMeaning` | ref/rwhoisd/mkdb/y.tab.c:679-690 | while no `and` follows an `or`, matrix and left-associative tree hold of the same records |
| `QueryMatrix.AgreeExactly` | ref/rwhoisd/mkdb/y.tab.c:679-690 | for distinct terms matrix and tree agree under every truth assignment if and only if no `and` follows an `or` |
| `QueryMatrix.ParsedMeansMatrix` | src/query.rs:254-283 | every parsed query is the left tree of its terms and has the meaning of their matrix whenever no `and` in it follows an `or` |
| `QueryBuilder.Builder.AddTerm` | ref/rwhoisd/mkdb/y.tab.c:993-1012 | the first term becomes the tree, a later one waits and displaces one that waits already |
| `QueryBuilder.Builder.AddAndTerm` | ref/rwhoisd/mkdb/y.tab.c:1014-1025 | links the waiting term behind the last one, keeping all links those of the rows |
| `QueryBuilder.Builder.AddOrTerm` | ref/rwhoisd/mkdb/y.tab.c:1027-1038 | links the waiting term behind the last row head, keeping all links those of the rows |
| `QueryBuilder.ReadRows` | ref/rwhoisd/mkdb/y.tab.c:1060-1085 | the walk over the OR-list and its AND-lists meets the rows of the matrix |
| `QueryBuilder.BuildAndRead` | ref/rwhoisd/mkdb/y.tab.c:679-690 | the reductions of any query, in order, build a structure that reads back as the matrix |
| `Codec.RwhoisCodec.Decode` | src/codec.rs:70-111 | a decoder that resumes its search answers as one that searches from the start, and keeps no newline before its resume index |
| `Codec.DecodesExactly` | src/codec.rs:70-111 | one call waits, gives up, fails or takes a line, by where the first newline stands and by bytes outside ASCII, at exactly the configured limit |
| `Codec.CleansExactly` | src/codec.rs:84-104 | clean text is delivered as it is, what is delivered is clean, and control bytes anywhere and blanks at the ends make no difference |
| `Codec.Clean` | src/codec.rs:84-104 | the copying loop drops control bytes, refuses bytes outside ASCII and trims blanks |
| `Codec.DrainSplit` | src/codec.rs:70-111 | decoding a buffer and then more bytes is decoding both at once |
| `Codec.ChunksDoNotMatter` | src/codec.rs:70-111 | however a stream is cut into chunks, the lines, the first error and the bytes left over are those of one buffer |
| `Codec.ReadChunk` | src/codec.rs:70-111 | a read that appends a chunk and calls the decoder until it asks for more yields the lines of the whole |
| `Codec.ReadStream` | src/codec.rs:70-111 | one decoder fed a stream chunk by chunk yields the lines, the first error and the rest of the stream decoded in one piece |
| `Codec.Encode` | src/codec.rs:117-131 | appends the line and CRLF, or refuses a line that is too long or holds CR or LF and leaves the buffer alone |
| `Codec.RoundTripExactly` | src/codec.rs:70-131 | an encoded line decodes to itself if and only if it is ASCII text without control bytes that neither starts nor ends with a blank |
| `Codec.StreamRoundTrip` | src/codec.rs:70-131 | any number of encoded lines, in whatever chunks, come back in order with nothing left |
| `SqlCompiler.SqlBuilder.PushAttrMatch` | examples/sqlite_directory.rs:117-153 | appends one comparison and its bound value, or refuses an unknown attribute and appends nothing |
| `SqlCompiler.SqlBuilder.LowerToSql` | examples/sqlite_directory.rs:79-115 | appends the text and the values of the whole expression, or reports the first term that has no SQL form |
| `SqlCompiler.Prepare` | examples/sqlite_directory.rs:168-190 | the statement with the class filter behind the condition, and its values in order |
| `Directory.TermMeans` | examples/in_memory_directory.rs:52-111 | what a term asks of a record of the in-memory directory, in terms of letters and fields: equality, prefix, suffix or stretch, case ignored |
| `SqlMeaning.AgreeExactly` | examples/sqlite_directory.rs:133-151 | `=` or `LIKE` with the bound pattern and the in-memory comparison agree on every field if and only if a wildcard needle holds no `%` and no `_` |
| `SqlCorrect.ExprReads` | examples/sqlite_directory.rs:79-115 | the text of an expression reads, wherever it stands, as one condition with the meaning of the expression, and takes exactly its own values |
| `SqlCorrect.StatementMeans` | examples/sqlite_directory.rs:176-190 | the statement is well formed, uses up its values, and means the condition and the class filter: no OR escapes its parentheses |
| `SqlCorrect.SelectsWhatAnswers` | examples/in_memory_directory.rs:52-111 | for every query that compiles and has plain wildcard needles, a row is selected exactly when the in-memory directory answers it |
| `SqlCorrect.OneTermExactly` | examples/in_memory_directory.rs:68-95 | for one comparison of a text column that condition is exact |
| `Response.ResponseWriter.PutTagged` | src/wire/response.rs:186-196 | appends token, space and body, or the token alone, and CRLF |
| `Response.ResponseWriter.PutRecord` | src/wire/response.rs:223-245 | appends class, attribute, type character and value with their delimiters |
| `Response.ResponseWriter.PutError` | src/wire/response.rs:278-287 | appends the three-digit code, the message and the detail, if it is not empty |
| `Response.ResponseWriter.Put` | src/wire/response.rs:172-294 | every call of the writer appends its line |
| `Response.ErrorLineStarts` | src/wire/response.rs:278-287 | an error line starts with its token and a code of at least three digits |
| `Response.TypeInAnyCase` | src/wire/response.rs:403-428 | a type character is read in either case, and no other character is one |
| `ResponseRoundTrip.ParsesReferralExactly` | src/wire/response.rs:372-383 | a text is read as a referral if and only if it is one, with a host without a slash and a 16-bit port |
| `ResponseRoundTrip.ParsesRecordExactly` | src/wire/response.rs:403-428 | a line is read as a record if and only if it is one, with a class and an attribute that are not empty |
| `ResponseRoundTrip.EndBlockExactly` | src/wire/response.rs:434-496 | a block end reads back as one if and only if its tag is neither `%info` nor `%referral` |
| `ResponseRoundTrip.ReferralReads` | src/wire/response.rs:372-383 | a referral reads back for every host without a slash, colons included, every port and every area |
| `ResponseRoundTrip.RecordLineReads` | src/wire/response.rs:403-428 | a record line reads back with its class, attribute, type and value |
| `ResponseRoundTrip.ErrorReads` | src/wire/response.rs:498-506 | code, message and detail of an error read back for every code and every message without ": " |
| `ResponseRoundTrip.CallReads` | src/wire/response.rs:434-496 | every line whose fields respect its delimiters reads back as it was meant |
| `ResponseRoundTrip.BufferReads` | src/wire/response.rs:172-294 | splitting the buffer of any run of calls at CRLF and parsing each line recovers the calls in order |
| `ResponseRoundTrip.WriteAll` | src/wire/response.rs:172-294 | a run of the writer leaves its lines in the buffer, in order |
| `Banner.ReadVersions` | src/wire/banner.rs:157-160 | the loop over the version list stops at the first bad token |
| `Banner.PrintThenParse` | src/wire/banner.rs:134-169 | a printable banner parses back to itself |
| `Banner.ParsedIsPrintable` | src/wire/banner.rs:148-169 | the parser returns printable banners only, whatever the line |
| `Banner.RoundTripExactly` | src/wire/banner.rs:42-169 | print and parse are inverse on a banner if and only if it has a version, 24-bit and 8-bit capability ids, a host name without a space and no empty implementation text |
| `Numerals.DecimalRoundTrip` | src/wire/banner.rs:59-66 | a decimal numeral has the value it was printed from |
| `Numerals.HexRoundTrip` | src/wire/banner.rs:98-101 | zero-padded hexadecimal of a fixed width has the value it was printed from |
| `Requests.Classify` | src/wire/request.rs:29-59 | a blank line is empty, a dash and a letter make a directive with the lower-cased word behind the dash as name and the trimmed rest as arguments, anything else is spooled or queried as it stands |
| `Requests.DirectiveReads` | src/wire/request.rs:33-43 | a directive is read back as its lower-cased name and its arguments, spooling or not |
| `Requests.WordsExactly` | src/directive/builtin.rs:55-57 | splitting at white space, in full: any amount of it, anywhere |
| `Requests.WordsJoined` | src/directive/builtin.rs:55-57 | words written with blanks between them are read back |
| `ConnectionRuns.RegisterLineBegins` | src/directive/builtin.rs:458-494 | a line `-register on` with an action and an email, for every session: the handler is begun with that action and that email, which the session keeps while it spools |
| `ConnectionServer.Register` | src/directive/builtin.rs:458-505 | begin and finish as asked, state, action and email set only on success |
| `ConnectionServer.RunBuiltin` | src/directive/builtin.rs:33-529 | every built-in directive changes the session, calls its handler and writes its lines as specified |
| `ConnectionServer.RunQuery` | src/server.rs:451-464 | parses the line, calls the query handler and then the referral handler, stopping at the first failure |
| `ConnectionServer.Dispatch` | src/server.rs:432-477 | each kind of request has its effect on session, handlers and response |
| `ConnectionServer.Serve` | src/server.rs:393-414 | a request is answered with its lines and the terminator of its outcome |
| `ConnectionServer.RunConnection` | src/server.rs:367-422 | the loop sends the bytes, makes the handler calls and ends in the state of the run of its events; if the banner cannot be sent, nothing happens, and an answer whose write fails ends it and is not counted as sent |
| `ConnectionServer.TakeEvent` | src/server.rs:380-421 | one event of an open connection has the bytes, the handler calls and the session of its step |
| `ConnectionStream.ServeStream` | src/server.rs:367-422 | decoder and connection loop together: the bytes sent and the handler calls are those of the run over the lines of the whole inbound stream, however it is cut into chunks and however it ends |
| `ConnectionRuns.DispatchMoves` | src/directive/builtin.rs:465-504 | a request moves the registration only through its first handler call, and spooled lines and queries reach a handler only as such |
| `ConnectionRuns.RegisteringMeans` | src/directive/builtin.rs:486-502 | a registration is under way if and only if some successful begin has no successful finish behind it |
| `ConnectionRuns.RegistrationIsSafe` | src/server.rs:393-476 | in every run: spooling exactly while action and email are set, and only with a register handler; every spooled line follows a successful begin with no successful finish between; no query reaches its handler during a registration |
| `ConnectionSettings.SettingsAreAsked` | src/session.rs:52-67 | in every run, from the first moment: hold-connect and forward are on if and only if the last request that sets them turns them on, and the limit and the client name are the last ones given |
| `ConnectionSettings.StaysOpenExactly` | src/server.rs:396-420 | a line leaves the connection open if and only if its answer was sent, it is no `-quit`, and, if it is a query, the requests before hold the connection |
| `ConnectionSettings.FirstQueryCloses` | src/server.rs:417-420 | a query on a new connection closes it |
| `ConnectionSettings.QueriesAreHeld` | src/server.rs:417-420 | in every run, a query that does not end the connection came while it was held by an earlier request |
| `ConnectionSettings.StatusReports` | src/directive/builtin.rs:201-240 | `-status` reports the settings the requests before it have made |
| `ConnectionTrace.EverythingInOrder` | src/server.rs:380-476 | in every run: the requests are the lines read, in order; handler calls and answers are theirs, in order, behind the banner; each query reaches its handler as the tree it parses to and then the referral handler; each spooled line, each provider and each registration is called with what was written |
| `ConnectionTrace.DirectivesAreListed` | src/directive/builtin.rs:268-300 | `-directive` lists each directive of the registry with its description |
| `ConnectionTrace.DirectivesAreInOrder` | src/directive/builtin.rs:284-286 | the registry is in order of name |
| `ConnectionAnswers.DispatchAnswers` | src/server.rs:396-414 | one terminator for a directive or a query, none for a blank or an accepted spool line |
| `ConnectionAnswers.EveryRequestIsAnswered` | src/server.rs:380-421 | in every run each answer has the terminators due to its request, only the last answer can fail to be sent, and the terminators sent are those of the answers sent plus one for a timeout notice that was sent |
| `ConnectionAnswers.UnheldQueryIsLast` | src/server.rs:417-420 | in every run a query handled with hold-connect off, and a `-quit`, is the last request |
| `AcceptLoop.StepKeeps` | src/server.rs:308-358 | every step keeps the balance of cap permits, drain permits and spawn counter |
| `AcceptLoop.RejectsExactly` | src/server.rs:318-338 | a connection is turned away if and only if there is a cap and so many connections hold a permit |
| `AcceptLoop.CapIsKept` | src/server.rs:318-338 | in every interleaving live connections never exceed a non-zero cap |
| `AcceptLoop.PermitsAreConserved` | src/server.rs:342-350 | drain permits and unfinished tasks together equal the spawn counter until it saturates |
| `AcceptLoop.ReturnsAfterAll` | src/server.rs:353-363 | until then the shutdown path may return, and has returned, only when every task has signalled; a panicked task blocks it |
| `AcceptLoop.ReturnsTooEarly` | src/server.rs:342-361 | past the largest counter value, for every cap, a run returns while a connection is served |
| `AcceptLoop.WaitsExactly` | src/server.rs:342-361 | the shutdown path waits for every connection if and only if at most 2^32 - 1 were spawned |
| `LinkedList.List.NextValue` | ref/rwhoisd/common/dl_list.c:60-79 | the value n places behind the cursor, or none past the end |
| `LinkedList.List.PrevValue` | ref/rwhoisd/common/dl_list.c:81-100 | the value n places before the cursor, or none before the start |
| `LinkedList.List.IsEmpty` | ref/rwhoisd/common/dl_list.c:102-116 | tells whether the list has no elements |
| `LinkedList.List.First` | ref/rwhoisd/common/dl_list.c:119-129 | moves to the first element |
| `LinkedList.List.Last` | ref/rwhoisd/common/dl_list.c:131-143 | moves to the last element |
| `LinkedList.List.Next` | ref/rwhoisd/common/dl_list.c:145-158 | moves on, or stays at the last element and says so |
| `LinkedList.List.Prev` | ref/rwhoisd/common/dl_list.c:160-173 | moves back, or stays at the first element and says so |
| `LinkedList.List.Insert` | ref/rwhoisd/common/dl_list.c:175-208 | inserts behind the cursor, which stays |
| `LinkedList.List.InsertBefore` | ref/rwhoisd/common/dl_list.c:210-243 | inserts in front of the cursor, which keeps its element |
| `LinkedList.List.Append` | ref/rwhoisd/common/dl_list.c:246-267 | appends; the cursor keeps its element |
| `LinkedList.List.Prepend` | ref/rwhoisd/common/dl_list.c:270-291 | prepends; the cursor keeps its element |
| `LinkedList.List.Delete` | ref/rwhoisd/common/dl_list.c:354-395 | destroys and removes the element under the cursor, which moves to the successor, or to the predecessor at the tail |
| `LinkedList.List.Destroy` | ref/rwhoisd/common/dl_list.c:397-428 | empties the list, having destroyed each datum that is not null exactly once, in order |
| `LinkedList.LinkInserted` | ref/rwhoisd/common/dl_list.c:194-205 | the four links set around a new node keep the list well formed |
| `LinkedList.LinkRemoved` | ref/rwhoisd/common/dl_list.c:370-391 | the links set past a removed node keep the list well formed |

## Left out

- Index files whose lines do not decode, are not sorted by value or are not terminated: the searches are specified on the files the indexer writes. The external `sort` (ref/rwhoisd/mkdb/index.c:28-33) compares the text between colons only, so that a file is sorted by its whole values is assumed, not proved.
- SearchEngine.Searcher.FullScan: on a line that does not decode the source can compare the query with a null pointer; such files are excluded, and so are lines that the reader cannot hold whole.
- Bisection with the substring comparison: it has no order, and the reference parser never pairs the two.
- Read errors, `fseek` errors and the file size recorded in the master file list, which is taken to be the length of the file.
- Overflow of `atoi`, `atol` and file offsets: numbers are unbounded.
- Data files with NUL bytes, as far as deletion is concerned.
- Deletion.CleanExactly: records in which a run of empty lines and the line behind it exceed the 511 bytes of the reader's buffer are not covered.
- SearchEngine.Searcher.FillOutRecord: the translation of raw attributes into those of a class (`mkdb_read_record`) is a parameter.
- CidrSearch.SearchCidrIndexFile: the reading of an address (`addrstring_to_ni`, around `inet_pton`) is a parameter.
- The soundex search, the choice of index files, `search_class` and the early return of its OR loop.
- The rest of the deletion code: index entries, file locks, renaming, the master file list.
- QueryBuilder.Builder.AddTerm: terms are never null; `set_query_term` returns null for an empty value, which the lexer does not produce.
- The lexer and the table-driven parser of the reference server, and how it derives comparison types from stars and quotes.
- Text outside ASCII in queries: the codec refuses it.
- Reserving capacity, and the end-of-stream handling of the framing library.
- ConnectionServer.RunConnection: a write that fails may have sent a part of its bytes; none are counted.
- SqlCorrect.StatementMeans: the meaning of SQL is that of the fragment the compiler emits; SQLite itself, the order of rows, the output of the records found and the empty-result error are not modelled.
- ConnectionRuns.RegistrationIsSafe: handlers are arbitrary outcomes, and the authentication handler is taken to leave state, action and email alone.
- ConnectionSettings.SettingsAreAsked: the authentication handler is taken to leave the settings alone.
- CidrSearch.LimitIsReported: index files that name a data file that is not there, on which a scan can end in an error.
- ConnectionAnswers.EveryRequestIsAnswered: handlers are taken to write no terminators of their own.
- Directives registered by an application, among them those that answer `Handled` by themselves.
- Sockets, timers, tracing, and the write of a rejected connection in the accept loop.
- AcceptLoop.ReturnsAfterAll: an accept error returns at once, without waiting for connections.
- LinkedList.List.Insert: allocation does not fail, and the list head is never null.
- `dl_list_append_list`, which leaves two heads on the same nodes, and freeing the list head.
- Configuration, schema, authority areas, security, logging and process code of the reference server.
