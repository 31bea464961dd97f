# vpc-flowlog-parser, modelled in Dafny

The program reads AWS VPC flow logs (version 2, space-separated, 14 fields per record) and
counts two things:

- how many flows fall under each **tag**;
- how many flows there are for each **"port,protocol"** pair.

A tag comes from a user-supplied lookup table, a CSV file with the columns `dstport`, `protocol`
and `tag`. The protocol of a flow is an IANA protocol number, which a fixed table resolves to a
name. The program then writes a report with two sections. The tag section's order does not depend
on Go's map iteration order. The port section's order is proved determined when every port parses
as an integer and no two keys share port number and protocol. Outside that case it can depend on
the map iteration order: "80,tcp" and "080,tcp" tie under the comparator and `sort.Slice` is not
stable, and a port such as "1a" makes the comparator cyclic. Some other key sets, such as a
NODATA port "-" among plain-digit ports, still sort one way only, but the model does not prove
that.

The model covers the three core packages.

- **Flow aggregator** (`parser.dfy`, module `Parser`)
  - `ProcessFlowLogs` is a method whose loop keeps the two tables equal to a pure fold,
    `Aggregate`, over the lines read so far.
  - `WriteOutput` is a method that:
    - collects the keys of each table in an arbitrary order (Go's map iteration is modelled by
      choice with `:|`);
    - sorts them the way `sort.Strings` and the `sort.Slice` comparator do;
    - builds the report text record by record.
- **Lookup table loader** (`lookup.dfy`, module `Lookup`)
  - `LoadLookupTable` is a method: a header scan (`FindColumns`/`ScanNames`) and then a record loop
    (`ReadRecords`).
  - Its loop keeps the two-level map equal to a pure fold, `Build`, over the records read so far.
- **Protocol resolver** (`protocol.dfy`, module `Protocol`)
  - The constant table and the total function `GetProtocolName`.

Four support modules complete the model:

- `GoStrings` (`strings.dfy`) holds the parts of Go's `strings`, `strconv` and `unicode` packages
  that the core calls: `TrimSpace`, `ToLower`, `Join`, `Fields`, `Split`, `<` on strings, `Atoi`
  and `Itoa`.
- `Csv` (`csv.dfy`) holds two things:
  - a record as the CSV reader yields it: a read error, or a list of fields;
  - the text the CSV writer produces for one record, quoting rules included.
- `Sorting` (`sorting.dfy`) holds sorting by a "less" function, with its order and permutation
  properties.
- `Wrappers` (`wrappers.dfy`) holds `Option` and `Result`.

Files are represented by values. The flow log is a sequence of reader results. The lookup file is
a header result plus a sequence of record results. The output file is the string written to it.

## Model

| member | source | states |
|---|---|---|
| `Parser.ProcessFlowLogs` | internal/parser/parser.go:18-89 | The loop over the records leaves the tag table and the port/protocol table equal to `Aggregate` of the whole log, so the lemmas below apply to its result. |
| `Parser.Increment` | internal/parser/parser.go:75 | Go's `m[key]++`: the key set gains `key`; `key` maps to its old count (zero when absent) plus one; every other key keeps its count. |
| `Parser.Tokens` | internal/parser/parser.go:40-58 | A line is counted exactly when it is a readable, non-empty record whose fields, joined with spaces, have at least 14 whitespace tokens. The tokens it yields are at least 14 and contain no white space. |
| `Parser.ResolveTag` | internal/parser/parser.go:78-83 | The tag is the two-level lookup of (port, protocol name) in the lookup table, with "Untagged" when the port or the protocol under it is missing. |
| `Lookup.Get` | internal/parser/parser.go:79-80 | The two-level read finds a tag only when the port and, under it, the protocol are present; a well-formed table yields only non-empty trimmed tags. |
| `Parser.LoadedTag` | internal/parser/parser.go:78-83 | With a table loaded from lookup records, a flow gets the tag of the last complete record naming its (port, protocol) pair, and "Untagged" when no record names it. |
| `Parser.PortProtoKey` | internal/parser/parser.go:74 | The key is "port,name". When neither part has a comma, splitting it at commas gives exactly [port, name] back. |
| `Parser.Step` | internal/parser/parser.go:40-85 | A line that is not counted leaves both tables unchanged. No line removes a key from either table. |
| `Parser.SkippedLineChangesNothing` | internal/parser/parser.go:40-58 | A read error, a zero-field record, or fewer than 14 tokens leaves both tables exactly as they were. |
| `Parser.CountedLineIncrementsOnce` | internal/parser/parser.go:64-85 | A counted line raises the count of key `fields[6] + "," + name` by one and the count of its tag by one, and changes no other entry. A number other than 1, 2, 6, 17 or 89 is counted under "unknown". |
| `Parser.TablesSumToAccepted` | internal/parser/parser.go:73-85 | Each table's counts sum to the number of accepted lines. |
| `Parser.SumRemove` | internal/parser/parser.go:25-26 | The total of a table is any one entry plus the total of the rest, whichever entry is taken out. |
| `Parser.SumIncrement` | internal/parser/parser.go:75 | One `m[key]++` adds exactly one to the table's total. |
| `Parser.PortKeysShape` | internal/parser/parser.go:74-75 | Every key of the port/protocol table splits at commas into at least two pieces, and the last piece is a protocol name. |
| `Parser.KeyShape` | internal/parser/parser.go:74 | A key built from any port and a protocol name is well shaped in that sense. |
| `Parser.KeyParts` | internal/parser/parser.go:140-145 | For comma-free port and protocol, the comparator's split of the key gives back exactly [port, protocol], the parsed port and the protocol. |
| `Parser.KeySplitsInTwo` | internal/parser/parser.go:158-165 | A key whose port has no comma splits into exactly [port, name], so the writer emits a row for it. |
| `Parser.CleanRecordCounted` | internal/parser/parser.go:50-85 | A record of at least 14 clean tokens passes through the join-and-resplit unchanged. As the only line it yields one count for its tag and one for "fields[6],name". |
| `Parser.PortKeyLessStrictOrder` | internal/parser/parser.go:139-156 | When every port parses as an integer, the comparator (port number, then protocol name) is irreflexive and transitive. |
| `Parser.MixedPortsStringOrder` | internal/parser/parser.go:147-150 | When a port does not parse, the whole keys are compared as strings: "10,tcp" comes before "1a,tcp", and "1a,tcp" before "9,tcp". |
| `Parser.NumericPortsFirst` | internal/parser/parser.go:152-154 | Two keys with numeric ports are ordered by the port numbers first, so 9 comes before 10. |
| `Parser.PortNumber` | internal/parser/parser.go:140-145 | The port is `strconv.Atoi` of the text before the first comma; for a key without a comma, of the whole key. |
| `Parser.ProtocolPart` | internal/parser/parser.go:141-155 | The protocol compared at line 155 is the second comma-separated piece of the key, and never contains a comma. |
| `Parser.SamePortNumberTies` | internal/parser/parser.go:152-155 | Two keys whose ports parse to the same number and whose protocols are equal compare equal both ways, whatever the spelling of the ports. |
| `Parser.EqualKeys` | internal/parser/parser.go:139-156 | "80,tcp" and "080,tcp" are different keys neither of which is less than the other, so their relative order in the report is left to the unstable `sort.Slice` and the map iteration order. |
| `Parser.PortKeyLess` | internal/parser/parser.go:139-156 | No key is less than itself under the comparator. |
| `Parser.PortKeyLessAsymmetric` | internal/parser/parser.go:139-156 | The comparator never puts two keys each before the other, whether or not the ports are numeric. |
| `Parser.MixedPortsNumericOrder` | internal/parser/parser.go:144-154 | "9,tcp" comes before "10,tcp". Together with `MixedPortsStringOrder`, this shows the comparator can have a cycle, e.g. 9 < 10 < 1a < 9, once a port such as "1a" does not parse. |
| `Parser.SortedTags` | internal/parser/parser.go:109-113 | The sorted tags are strictly ascending in byte order and are exactly the tags of the table. |
| `Parser.SortedPortKeys` | internal/parser/parser.go:134-156 | The sorted keys are exactly the keys of the table, each once. When all ports are numeric, they are ascending by port and then by protocol. |
| `Parser.PortOrderedAscending` | internal/parser/parser.go:139-156 | A listing without duplicates of keys with numeric ports, no two sharing port number and protocol, that is in port-then-protocol order is strictly ascending under the comparator. |
| `Parser.PortOrderUnique` | internal/parser/parser.go:134-156 | For such keys there is only one ordered listing without duplicates: two of them are equal, so the sorted port keys do not depend on map iteration order. |
| `Parser.PortOrder` | internal/parser/parser.go:134-156 | A listing of the keys, each exactly once, which is in port-then-protocol order whenever all ports are numeric. |
| `Parser.ElemsAllIn` | internal/parser/parser.go:116 | Every listed key is a key of the table, so every count read by the writer exists. |
| `Parser.CollectKeys` | internal/parser/parser.go:109-112 | Appending each map key during iteration lists every key of the table exactly once. |
| `Parser.WriteOutput` | internal/parser/parser.go:92-177 | The output is the header "Tag Counts:\n\nTag,Count\n", then one record per tag in strictly ascending order, then "\nPort/Protocol Combination Counts:\n\nPort,Protocol,Count\n", then the port rows. Everything up to the port rows depends on the tag table alone, not on map iteration order. Each port/protocol key is written at most once (a key that does not split in two is not written). When all ports are numeric the keys come in port-then-protocol order, and when moreover no two keys share port number and protocol, the whole output is determined by the tables (`PortOrder`). |
| `Parser.WriteTagSection` | internal/parser/parser.go:108-121 | The tag section is one "tag,count" CSV record per tag of the table, in the single strictly ascending order of the tags, whatever order the map iteration gave. |
| `Parser.WritePortSection` | internal/parser/parser.go:133-170 | The port section is one "port,protocol,count" CSV record per key that splits into two pieces, each key at most once. When all ports are numeric the keys come in comparator order; when moreover no two keys share port number and protocol, the section is `PortRows` of the single such order, `PortOrder`, whatever order the map iteration gave. |
| `Parser.DigitsNeedNoQuotes` | internal/parser/parser.go:117 | A count printed by `strconv.Itoa` is never quoted by the CSV writer. |
| `Parser.TagRowPlain` | internal/parser/parser.go:116-118 | A tag that needs no quoting is written as "tag,count" followed by a newline. |
| `Parser.NamesNeedNoQuotes` | internal/parser/parser.go:165-166 | A protocol name is never quoted by the CSV writer. |
| `Parser.PortRowOfKey` | internal/parser/parser.go:158-169 | A key built from an unquoted port without commas is written back as the key itself, a comma, its count and a newline. |
| `Parser.PortRow` | internal/parser/parser.go:159-169 | A key contributes a record exactly when it splits at commas into two pieces, and nothing otherwise. |
| `Parser.CommaInPortDropsRow` | internal/parser/parser.go:160-163 | A flow whose port token contains a comma is counted but gets no row: its key splits into more than two pieces. |
| `Lookup.LoadLookupTable` | internal/lookup/lookup.go:17-79 | The loader returns exactly `Load` of the header and the records, so the lemmas below apply to its result. |
| `Lookup.Load` | internal/lookup/lookup.go:28-78 | The load fails with the header error exactly when the header cannot be read (both directions), and a successful load gives a well-formed table. |
| `Lookup.FindColumns` | internal/lookup/lookup.go:34-44 | Each column index is the position of the last header cell that, trimmed and lower-cased, equals "dstport", "protocol" or "tag" respectively, or -1 when none does. |
| `Lookup.ScanNames` | internal/lookup/lookup.go:35-44 | The `switch` loop over the normalized header names leaves each index at the last matching position, or -1 when nothing matches. |
| `Lookup.Normalized` | internal/lookup/lookup.go:36 | Each header cell is compared after `TrimSpace` and then `ToLower`. |
| `Lookup.LastColumn` | internal/lookup/lookup.go:35-43 | The result is -1 exactly when no name equals the column; otherwise it is a position holding the column with no match after it. |
| `Lookup.MissingColumnsIff` | internal/lookup/lookup.go:46-48 | The load fails with the missing-columns error exactly when the header was read and one of dstport, protocol, tag matches no header cell. |
| `Lookup.Entry` | internal/lookup/lookup.go:62-68 | A record yields nothing exactly when its trimmed port, protocol or tag is empty. Otherwise it yields exactly the trimmed cell of the dstport column, the trimmed and lower-cased cell of the protocol column and the trimmed cell of the tag column, all three non-empty and without white space at either end, the protocol without capital letters. |
| `Lookup.Insert` | internal/lookup/lookup.go:70-73 | Storing a tag sets only the entry for (port, protocol). Every other protocol under the port and every other port keep their entries, and a new port gets an inner map. |
| `Lookup.InsertInPlace` | internal/lookup/lookup.go:70-73 | Creating the inner map when the port is absent and then assigning into it is `Insert`. |
| `Lookup.Build` | internal/lookup/lookup.go:53-74 | The only error of the record loop is an unreadable record. A successful result is well formed: non-empty trimmed ports, protocols and tags, lower-case protocols, and no empty inner map. |
| `Lookup.InsertWellFormed` | internal/lookup/lookup.go:62-73 | Inserting valid trimmed cells with a lower-case protocol keeps the table well formed. |
| `Lookup.ReadRecords` | internal/lookup/lookup.go:53-74 | The record loop returns exactly `Build` of the records: it fails on the first unreadable one and otherwise stores every complete record in order. |
| `Lookup.RowErrorAborts` | internal/lookup/lookup.go:58-60 | One record that cannot be read, anywhere in the file, makes the whole load an error with no partial table. |
| `Lookup.BuildOk` | internal/lookup/lookup.go:53-74 | The record loop succeeds exactly when every record can be read. |
| `Lookup.IncompleteRowSkipped` | internal/lookup/lookup.go:66-68 | A readable record with an empty trimmed port, protocol or tag leaves the table unchanged. |
| `Lookup.BuildLastWriteWins` | internal/lookup/lookup.go:53-74 | In a loaded table, every (port, protocol) pair maps to the tag of the last complete record naming it, and pairs no record names are absent. |
| `Protocol.GetProtocolName` | internal/protocol/protocol.go:20-27 | Total: the result is one of icmp, igmp, tcp, udp, ospf or "unknown". It is "unknown" exactly when the trimmed number is not in the table. |
| `Protocol.KnownProtocols` | internal/protocol/protocol.go:10-17 | "1", "2", "6", "17" and "89" resolve to icmp, igmp, tcp, udp and ospf. |
| `Protocol.OtherNumbersUnknown` | internal/protocol/protocol.go:21-25 | Every other trimmed number resolves to "unknown". |
| `Protocol.PaddedNumber` | internal/protocol/protocol.go:21 | " 6 " resolves to "tcp". |
| `Protocol.NameIgnoresPadding` | internal/protocol/protocol.go:21 | The name of a number is the name of its trimmed form. |
| `Protocol.NamesHaveNoComma` | internal/protocol/protocol.go:10-17 | Every name the resolver returns is non-empty and has no comma. |
| `Csv.WriteField` | internal/parser/parser.go:118 | The CSV writer leaves a field that needs no quotes unchanged. Otherwise it writes it in double quotes, and reading the quoted text back gives the field. |
| `Csv.UnescapeEscape` | internal/parser/parser.go:118 | Doubling the quotes inside a quoted field is undone by reading: the round trip gives the field back. |
| `Csv.WriteFieldsPlain` | internal/parser/parser.go:166-167 | A record none of whose fields needs quoting is written as its fields joined by commas. |
| `Csv.NeedsQuotes` | internal/parser/parser.go:118 | A field containing a comma, a double quote or a line feed is always quoted. |
| `Csv.WriteRecord` | internal/parser/parser.go:166-167 | A written record ends with a line feed, and one whose fields need no quoting is exactly its fields joined by commas followed by a line feed. |
| `GoStrings.TrimSpace` | internal/lookup/lookup.go:62-64 | `strings.TrimSpace` never lengthens a string. |
| `GoStrings.TrimLeftDrops` | internal/lookup/lookup.go:62-64 | Trimming the front keeps a suffix of the string, and everything dropped is white space. |
| `GoStrings.TrimRightDrops` | internal/lookup/lookup.go:62-64 | Trimming the back keeps a prefix of the string, and everything dropped is white space. |
| `GoStrings.TrimSpaceSlice` | internal/lookup/lookup.go:62-64 | `strings.TrimSpace` gives a contiguous slice of the string, with only white space before and after it. |
| `GoStrings.TrimSpaceTrims` | internal/lookup/lookup.go:62-64 | The trimmed cells have no white space at either end. |
| `GoStrings.TrimSpaceOfTrimmed` | internal/parser/parser.go:64-65 | Trimming a string with no white space at either end changes nothing. |
| `GoStrings.TokenIsTrimmed` | internal/parser/parser.go:64-65 | The `TrimSpace` on a token from `strings.Fields` is the identity. |
| `GoStrings.ToLower` | internal/lookup/lookup.go:63 | Lower-casing keeps the length, maps each character by itself ("A".."Z" to "a".."z", everything else unchanged), and leaves no upper-case ASCII letter. |
| `GoStrings.ToLowerTrimmed` | internal/lookup/lookup.go:63-66 | Lower-casing a trimmed protocol cell keeps it trimmed, and keeps it empty or non-empty. |
| `GoStrings.Fields` | internal/parser/parser.go:52 | Every piece `strings.Fields` returns is a non-empty run without white space, and the pieces, concatenated, are the string with its white space removed. |
| `GoStrings.RemoveSpacesPrefix` | internal/parser/parser.go:52 | Removing the white space from a string is removing it from a prefix and from the rest, one after the other. |
| `GoStrings.FieldsOfJoin` | internal/parser/parser.go:51-52 | Joining clean tokens with single spaces and splitting on white space gives the same tokens back. |
| `GoStrings.IndexOf` | internal/parser/parser.go:140 | The first position of the separator, or the length when there is none. |
| `GoStrings.Split` | internal/parser/parser.go:140-141 | `strings.Split` with one separator always yields at least one piece. Its other properties are `SplitPiecesLackSeparator`, `JoinOfSplit`, `SplitOfJoin`, `SplitConcat` and `SplitNoSeparator`. |
| `GoStrings.Join` | internal/parser/parser.go:51 | `strings.Join` starts with the first part, and with an empty separator is the parts concatenated. Its round trips are `JoinOfSplit`, `SplitOfJoin` and `FieldsOfJoin`. |
| `GoStrings.JoinOfSplit` | internal/parser/parser.go:160 | Joining the pieces of `strings.Split` with the separator gives the string back. |
| `GoStrings.SplitOfJoin` | internal/parser/parser.go:74-75 | Splitting the join of separator-free pieces gives the pieces back. |
| `GoStrings.SplitPiecesLackSeparator` | internal/parser/parser.go:160 | No piece of `strings.Split` contains the separator. |
| `GoStrings.SplitConcat` | internal/parser/parser.go:140-141 | Splitting `a + sep + b` splits `a` and `b` independently. |
| `GoStrings.SplitNoSeparator` | internal/parser/parser.go:140-141 | A string without the separator splits into itself alone. |
| `GoStrings.LexLessIrreflexive` | internal/parser/parser.go:113 | No string is less than itself under Go's `<`. |
| `GoStrings.LexLessTransitive` | internal/parser/parser.go:113 | Go's `<` on strings is transitive. |
| `GoStrings.LexLessTotal` | internal/parser/parser.go:113 | Of two different strings, one is less than the other. |
| `GoStrings.LexLess` | internal/parser/parser.go:149-155 | Go's `<` on strings (also what `sort.Strings` uses at line 113) puts a proper prefix before its extensions; its order properties are `LexLessIrreflexive`, `LexLessTransitive` and `LexLessTotal`. |
| `GoStrings.Atoi` | internal/parser/parser.go:144-145 | `strconv.Atoi` accepts only an optional sign followed by at least one decimal digit, with a value in the 64-bit range. The result is the digits' value, negated after "-", and every unsigned digit string whose value is at most 2^63-1 is accepted. |
| `GoStrings.Itoa` | internal/parser/parser.go:117 | `strconv.Itoa` of a count is a non-empty digit string whose decimal value is the count, one digit long exactly below 10, and without a leading zero. |
| `GoStrings.AtoiOfItoa` | internal/parser/parser.go:117 | What `Itoa` prints, `Atoi` reads back. |
| `Sorting.SortBy` | internal/parser/parser.go:113 | Sorting rearranges: the result is a permutation of the input. |
| `Sorting.SortBySorted` | internal/parser/parser.go:139-156 | Under an irreflexive, transitive "less", the sorted result has no later element less than an earlier one. |
| `Sorting.InsertBySorted` | internal/parser/parser.go:139-156 | Inserting into a sorted list keeps it sorted. |
| `Sorting.NoDuplicatesOfPermutation` | internal/parser/parser.go:134-139 | Rearranging distinct keys leaves them distinct. |
| `Sorting.AscendingUnique` | internal/parser/parser.go:109-113 | Two strictly ascending listings of the same set are equal. |
| `Sorting.AscendingByUnique` | internal/parser/parser.go:139-156 | Under any strict order, two listings of the same set that are each strictly ascending are equal. |
| `Sorting.AscendingNoDuplicates` | internal/parser/parser.go:113 | A strictly ascending listing holds each element once. |
| `Sorting.LeastExists` | internal/parser/parser.go:113 | Every non-empty set of tags has a least one under `<`. |
| `Sorting.PrependLeast` | internal/parser/parser.go:113 | The least tag followed by an ascending listing of the others is an ascending listing of all of them. |
| `Sorting.AscendingKeys` | internal/parser/parser.go:109-113 | A listing of a set of tags that holds each exactly once, in strictly ascending order. |
| `Sorting.SortedDistinctAscending` | internal/parser/parser.go:113 | Distinct strings sorted by `<` are strictly ascending. |
| `Sorting.AppendFresh` | internal/parser/parser.go:110-111 | Appending a key not yet listed keeps the list free of duplicates and adds exactly that key. |

## Left out

- File opening, creation and closing are left out, and so are the `WriteString`, writer and flush
  error paths: the model takes the files' contents as values and returns the report as a string.
- Logging (`logger.Warnf`, `logger.Infof`) has no effect on results and is not modelled, so the
  line counter `lineNum` appears only as the loop index.
- cmd/flowlogparser/main.go (argument handling and orchestration) and pkg/logger are not part of
  this model.
- The CSV reader's own tokenising is not modelled: quoting, `TrimLeadingSpace` and the skipping
  of blank lines. Each line is given as the reader's result, a read error or a list of fields. The
  reader's field-count check on the lookup file is modelled by `Lookup.Fits`: a record whose
  field count differs from the header's fails the load like a read error. The flow-log reader
  has no such check (`FieldsPerRecord = -1`).
- `GoStrings.ToLower` maps only 'A'..'Z'. Go's `strings.ToLower` also lower-cases non-ASCII
  letters. Header matching is unaffected, but a lookup protocol cell with non-ASCII capitals is
  kept as given.
- Strings are sequences of Unicode code points. Invalid UTF-8 and the byte-wise/code-point
  difference of Go's `<` (which agree on valid UTF-8) are not modelled.
- Counts are unbounded naturals. Go's `int` could overflow after 2^63 increments.
- `Sorting.SortBy` is an insertion sort on sequence values, not the library's in-place algorithm.
  Only the order it promises is used: sortedness, permutation and uniqueness of the result.
- `WriteOutput` states no order for the port section when some port does not parse as an integer.
  In that case the comparator can fail to be a strict order: a port such as "1a" gives the cycle
  of `MixedPortsStringOrder` and `MixedPortsNumericOrder`, and `sort.Slice` then gives no
  determined order. Not every non-numeric port breaks it: against ports written as plain digits, a
  NODATA port "-" sorts consistently first, but the model does not prove an order for that case.
- `WriteOutput` also leaves unspecified the relative order of keys that compare equal, such as
  "080,tcp" and "80,tcp" (`EqualKeys`): the program's `sort.Slice` is not stable, so the report
  is then not byte-for-byte reproducible from the tables. Its full determinism (`PortOrder`) is
  stated only when no two keys share port number and protocol.
- `GoStrings.Fields`: the contract states the tokens and their concatenation, not where the
  splits fall; the definition splits at each run of white space, and `FieldsOfJoin` states the
  round trip for joined tokens.
- `GoStrings.TrimSpace`: its own contract states only that it never lengthens; its description as
  a slice with white space around it is the lemma `TrimSpaceSlice`, and `TrimSpaceTrims` states
  that the result has no white space at either end.
- `Parser.PortKeyLess` treats a key without a comma as having an empty protocol. The Go comparator
  would index past the end of the split there and panic. The aggregator never builds such a key
  (`PortKeysShape`).
- `Lookup.FindColumns` normalises the whole header first (`Normalized`) and then scans the
  normalised names. The Go loop normalises each cell as it goes, and the indices are the same.
