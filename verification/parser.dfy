/** The flow aggregator: counts flow-log records per tag and per "port,protocol" pair, and writes
    the two tables as a report. The tag section does not depend on map iteration order; the port
    section does not either when every port parses as a number and no two keys share port number
    and protocol. */
module Parser {
  import opened Wrappers
  import opened GoStrings
  import opened Sorting
  import Csv
  import opened Protocol
  import opened Lookup

  /** A version 2 flow record has 14 fields; shorter lines are skipped. */
  const MinFields: nat := 14
  /** Positions of the destination port and the protocol number in a record. */
  const DstPortField: nat := 6
  const ProtocolField: nat := 7
  /** The tag of a flow whose (port, protocol) pair the lookup table does not map. */
  const Untagged: string := "Untagged"

  type Counts = map<string, nat>

  /** The two frequency tables. */
  datatype Tables = Tables(tagCounts: Counts, portProtocolCounts: Counts)

  /** The count of `key`, zero when absent (Go's zero value for a missing map key). */
  function Count(m: Counts, key: string): nat {
    if key in m then m[key] else 0
  }

  /** `m[key]++` on a Go map. */
  function Increment(m: Counts, key: string): (r: Counts)
    ensures r.Keys == m.Keys + {key}
    ensures r[key] == Count(m, key) + 1
    ensures forall k :: k in m && k != key ==> r[k] == m[k]
  {
    m[key := Count(m, key) + 1]
  }

  // ---------------------------------------------------------------------------------------------
  // Per-line processing

  /** The whitespace tokens of a record that gets counted: the reader's fields joined with single
      spaces and split again on runs of white space. Read errors, empty records and records with
      fewer than 14 tokens give nothing. */
  function Tokens(rec: Csv.ReadResult): (r: Option<seq<string>>)
    ensures r.Some? <==> rec.Record? && rec.fields != [] && |Fields(Join(rec.fields, " "))| >= MinFields
    ensures r.Some? ==> |r.value| >= MinFields
    ensures r.Some? ==> forall k :: 0 <= k < |r.value| ==> IsToken(r.value[k])
  {
    if rec.ReadError? || |rec.fields| == 0 then None
    else
      var fields := Fields(Join(rec.fields, " "));
      if |fields| < MinFields then None else Some(fields)
  }

  /** The key of the port/protocol table. When neither part has a comma, splitting the key at
      commas gives the two parts back. */
  function PortProtoKey(dstport: string, protocolName: string): (key: string)
    ensures ',' !in dstport && ',' !in protocolName ==> Split(key, ',') == [dstport, protocolName]
  {
    if ',' !in dstport && ',' !in protocolName then
      SplitConcat(dstport, protocolName, ',');
      SplitNoSeparator(dstport, ',');
      SplitNoSeparator(protocolName, ',');
      dstport + "," + protocolName
    else
      dstport + "," + protocolName
  }

  /** The tag of a flow: looked up by port, then by protocol name, with `Untagged` when either
      level is missing; that is, the two-level lookup of the table with `Untagged` as fallback. */
  function ResolveTag(lookupMap: LookupMap, dstport: string, protocolName: string): (tag: string)
    ensures tag == Get(lookupMap, dstport, protocolName).GetOr(Untagged)
  {
    if dstport in lookupMap && protocolName in lookupMap[dstport] then lookupMap[dstport][protocolName]
    else Untagged
  }

  /** With a loaded lookup table, a flow gets the tag of the last complete lookup record naming its
      (port, protocol) pair, and `Untagged` when no record names it. */
  lemma LoadedTag(rows: seq<Csv.ReadResult>, width: nat, cols: Columns, dstport: string, protocolName: string)
    requires cols.Fit(width) && Build(rows, width, cols).Ok?
    ensures ResolveTag(Build(rows, width, cols).value, dstport, protocolName)
         == LastTag(rows, width, cols, dstport, protocolName).GetOr(Untagged)
  {
    BuildLastWriteWins(rows, width, cols);
  }

  /** What one line does to the tables. A line that is not counted changes nothing; no line
      removes a key from either table. */
  function Step(t: Tables, rec: Csv.ReadResult, lookupMap: LookupMap): (r: Tables)
    ensures Tokens(rec).None? ==> r == t
    ensures t.tagCounts.Keys <= r.tagCounts.Keys && t.portProtocolCounts.Keys <= r.portProtocolCounts.Keys
  {
    match Tokens(rec)
    case None => t
    case Some(fields) =>
      var dstport := TrimSpace(fields[DstPortField]);
      var protocolName := GetProtocolName(TrimSpace(fields[ProtocolField]));
      Tables(Increment(t.tagCounts, ResolveTag(lookupMap, dstport, protocolName)),
             Increment(t.portProtocolCounts, PortProtoKey(dstport, protocolName)))
  }

  lemma StepCounted(t: Tables, rec: Csv.ReadResult, lookupMap: LookupMap)
    requires Tokens(rec).Some?
    ensures
      var fields := Tokens(rec).value;
      var dstport := TrimSpace(fields[DstPortField]);
      var protocolName := GetProtocolName(TrimSpace(fields[ProtocolField]));
      Step(t, rec, lookupMap) == Tables(Increment(t.tagCounts, ResolveTag(lookupMap, dstport, protocolName)),
                                        Increment(t.portProtocolCounts, PortProtoKey(dstport, protocolName)))
  {
  }

  /** The tables after the lines of `log`, in order, starting from two empty tables. */
  function Aggregate(log: seq<Csv.ReadResult>, lookupMap: LookupMap): Tables {
    if log == [] then Tables(map[], map[])
    else Step(Aggregate(log[..|log| - 1], lookupMap), log[|log| - 1], lookupMap)
  }

  /** The number of lines that get counted. */
  function Accepted(log: seq<Csv.ReadResult>): nat {
    if log == [] then 0
    else Accepted(log[..|log| - 1]) + (if Tokens(log[|log| - 1]).Some? then 1 else 0)
  }

  lemma AggregateAppend(log: seq<Csv.ReadResult>, rec: Csv.ReadResult, lookupMap: LookupMap)
    ensures Aggregate(log + [rec], lookupMap) == Step(Aggregate(log, lookupMap), rec, lookupMap)
    ensures Accepted(log + [rec]) == Accepted(log) + (if Tokens(rec).Some? then 1 else 0)
  {
    assert (log + [rec])[..|log|] == log;
  }

  /** `ProcessFlowLogs`, with the file already read as a sequence of reader results. */
  method ProcessFlowLogs(log: seq<Csv.ReadResult>, lookupMap: LookupMap)
    returns (tagCounts: Counts, portProtocolCounts: Counts)
    ensures Tables(tagCounts, portProtocolCounts) == Aggregate(log, lookupMap)
  {
    tagCounts, portProtocolCounts := map[], map[];
    var lineNum := 0;
    while lineNum < |log|
      invariant 0 <= lineNum <= |log|
      invariant Tables(tagCounts, portProtocolCounts) == Aggregate(log[..lineNum], lookupMap)
    {
      var record := log[lineNum];
      assert log[..lineNum + 1] == log[..lineNum] + [record];
      AggregateAppend(log[..lineNum], record, lookupMap);
      ghost var before := Tables(tagCounts, portProtocolCounts);
      lineNum := lineNum + 1;
      if record.Record? && |record.fields| != 0 {
        var fields := Fields(Join(record.fields, " "));
        if |fields| >= MinFields {
          assert Tokens(record) == Some(fields);
          var dstport := TrimSpace(fields[DstPortField]);
          var protocolNum := TrimSpace(fields[ProtocolField]);
          var protocolName := GetProtocolName(protocolNum);
          var portProtoKey := dstport + "," + protocolName;
          portProtocolCounts := Increment(portProtocolCounts, portProtoKey);
          var tag := Untagged;
          if dstport in lookupMap {
            if protocolName in lookupMap[dstport] {
              tag := lookupMap[dstport][protocolName];
            }
          }
          assert tag == ResolveTag(lookupMap, dstport, protocolName);
          tagCounts := Increment(tagCounts, tag);
          StepCounted(before, record, lookupMap);
        }
      }
    }
    assert log[..|log|] == log;
  }

  // ---------------------------------------------------------------------------------------------
  // Properties of the aggregation

  /** A line that is not counted (read error, empty record, fewer than 14 tokens) leaves both
      tables exactly as they were. */
  lemma SkippedLineChangesNothing(log: seq<Csv.ReadResult>, rec: Csv.ReadResult, lookupMap: LookupMap)
    requires rec.ReadError? || rec.fields == [] || |Fields(Join(rec.fields, " "))| < MinFields
    ensures Aggregate(log + [rec], lookupMap) == Aggregate(log, lookupMap)
  {
    AggregateAppend(log, rec, lookupMap);
  }

  /** A counted line adds one to the count of its key `fields[6] + "," + name` and one to the count
      of its tag, and changes no other count. An unknown protocol number is counted under the name
      "unknown" and its tag is looked up under that name. */
  lemma {:induction false} CountedLineIncrementsOnce(log: seq<Csv.ReadResult>, rec: Csv.ReadResult, lookupMap: LookupMap)
    requires Tokens(rec).Some?
    ensures
      var fields := Tokens(rec).value;
      var before, after := Aggregate(log, lookupMap), Aggregate(log + [rec], lookupMap);
      var name := GetProtocolName(fields[ProtocolField]);
      var key := fields[DstPortField] + "," + name;
      var tag := ResolveTag(lookupMap, fields[DstPortField], name);
      && (TrimSpace(fields[ProtocolField]) !in {"1", "2", "6", "17", "89"} ==> name == Unknown)
      && after.portProtocolCounts.Keys == before.portProtocolCounts.Keys + {key}
      && after.portProtocolCounts[key] == Count(before.portProtocolCounts, key) + 1
      && (forall k :: k in before.portProtocolCounts && k != key ==>
            after.portProtocolCounts[k] == before.portProtocolCounts[k])
      && after.tagCounts.Keys == before.tagCounts.Keys + {tag}
      && after.tagCounts[tag] == Count(before.tagCounts, tag) + 1
      && (forall k :: k in before.tagCounts && k != tag ==> after.tagCounts[k] == before.tagCounts[k])
  {
    var fields := Tokens(rec).value;
    AggregateAppend(log, rec, lookupMap);
    TokenIsTrimmed(fields[DstPortField]);
    TokenIsTrimmed(fields[ProtocolField]);
    if TrimSpace(fields[ProtocolField]) !in {"1", "2", "6", "17", "89"} {
      OtherNumbersUnknown(fields[ProtocolField]);
    }
  }

  /** Every key of the port/protocol table is well shaped (see `WellShapedKey`); when the port has
      no comma of its own, the key splits into exactly [port, name] (`KeySplitsInTwo`). */
  lemma {:induction false} PortKeysShape(log: seq<Csv.ReadResult>, lookupMap: LookupMap)
    ensures forall k :: k in Aggregate(log, lookupMap).portProtocolCounts ==> WellShapedKey(k)
    decreases |log|
  {
    if log != [] {
      var prefix, rec := log[..|log| - 1], log[|log| - 1];
      PortKeysShape(prefix, lookupMap);
      if Tokens(rec).Some? {
        var fields := Tokens(rec).value;
        KeyShape(TrimSpace(fields[DstPortField]), GetProtocolName(TrimSpace(fields[ProtocolField])));
      }
    }
  }

  /** Split at its commas, a key has at least two pieces, and the last one is a protocol name. */
  predicate WellShapedKey(key: string) {
    var parts := Split(key, ',');
    |parts| >= 2 && parts[|parts| - 1] in ProtocolNames
  }

  lemma KeyShape(dstport: string, protocolName: string)
    requires protocolName in ProtocolNames
    ensures WellShapedKey(PortProtoKey(dstport, protocolName))
  {
    NamesHaveNoComma(protocolName);
    SplitConcat(dstport, protocolName, ',');
    SplitNoSeparator(protocolName, ',');
  }

  /** A key whose port and protocol contain no comma has that port and that protocol. */
  lemma KeyParts(dstport: string, protocolName: string)
    requires ',' !in dstport && ',' !in protocolName
    ensures Split(PortProtoKey(dstport, protocolName), ',') == [dstport, protocolName]
    ensures PortNumber(PortProtoKey(dstport, protocolName)) == Atoi(dstport)
    ensures ProtocolPart(PortProtoKey(dstport, protocolName)) == protocolName
  {
    SplitConcat(dstport, protocolName, ',');
    SplitNoSeparator(dstport, ',');
    SplitNoSeparator(protocolName, ',');
  }

  /** The key of a flow whose port contains no comma splits back into its port and protocol name. */
  lemma KeySplitsInTwo(dstport: string, protocolName: string)
    requires ',' !in dstport && protocolName in ProtocolNames
    ensures Split(PortProtoKey(dstport, protocolName), ',') == [dstport, protocolName]
  {
    NamesHaveNoComma(protocolName);
    KeyParts(dstport, protocolName);
  }

  /** A record whose fields, as the reader delivered them, are at least 14 tokens without white
      space is counted with exactly those fields: as the only line of a log it gives one count for
      its tag and one for the key "fields[6],name". */
  lemma CleanRecordCounted(fields: seq<string>, lookupMap: LookupMap)
    requires |fields| >= MinFields
    requires forall k :: 0 <= k < |fields| ==> IsToken(fields[k])
    ensures Tokens(Csv.Record(fields)) == Some(fields)
    ensures
      var name := GetProtocolName(fields[ProtocolField]);
      Aggregate([Csv.Record(fields)], lookupMap)
        == Tables(map[ResolveTag(lookupMap, fields[DstPortField], name) := 1],
                  map[PortProtoKey(fields[DstPortField], name) := 1])
  {
    var rec := Csv.Record(fields);
    FieldsOfJoin(fields);
    TokenIsTrimmed(fields[DstPortField]);
    TokenIsTrimmed(fields[ProtocolField]);
    assert [rec][..0] == [];
    StepCounted(Tables(map[], map[]), rec, lookupMap);
  }

  // ---------------------------------------------------------------------------------------------
  // Table totals

  /** The sum of all counts of a table. */
  ghost function Sum(m: Counts): nat
    decreases |m.Keys|
  {
    if m.Keys == {} then 0
    else
      var k :| k in m.Keys;
      assert (m - {k}).Keys == m.Keys - {k};
      m[k] + Sum(m - {k})
  }

  lemma {:induction false} SumRemove(m: Counts, k: string)
    requires k in m
    ensures Sum(m) == m[k] + Sum(m - {k})
    decreases |m.Keys|
  {
    var j :| j in m.Keys && Sum(m) == m[j] + Sum(m - {j});
    if j != k {
      var mj, mk := m - {j}, m - {k};
      assert mj.Keys == m.Keys - {j} && k in mj && mj[k] == m[k];
      assert mk.Keys == m.Keys - {k} && j in mk && mk[j] == m[j];
      SumRemove(mj, k);
      SumRemove(mk, j);
      assert mj - {k} == mk - {j};
    }
  }

  /** One increment adds one to the total. */
  lemma SumIncrement(m: Counts, key: string)
    ensures Sum(Increment(m, key)) == Sum(m) + 1
  {
    var r := Increment(m, key);
    SumRemove(r, key);
    if key in m {
      SumRemove(m, key);
      assert r - {key} == m - {key};
    } else {
      assert r - {key} == m;
    }
  }

  /** Both tables sum to the number of counted lines. */
  lemma {:induction false} TablesSumToAccepted(log: seq<Csv.ReadResult>, lookupMap: LookupMap)
    ensures Sum(Aggregate(log, lookupMap).tagCounts) == Accepted(log)
    ensures Sum(Aggregate(log, lookupMap).portProtocolCounts) == Accepted(log)
    decreases |log|
  {
    if log == [] {
      assert Aggregate(log, lookupMap).tagCounts.Keys == {};
    } else {
      var prefix, rec := log[..|log| - 1], log[|log| - 1];
      TablesSumToAccepted(prefix, lookupMap);
      var t := Aggregate(prefix, lookupMap);
      if Tokens(rec).Some? {
        var fields := Tokens(rec).value;
        var dstport := TrimSpace(fields[DstPortField]);
        var protocolName := GetProtocolName(TrimSpace(fields[ProtocolField]));
        StepCounted(t, rec, lookupMap);
        SumIncrement(t.tagCounts, ResolveTag(lookupMap, dstport, protocolName));
        SumIncrement(t.portProtocolCounts, PortProtoKey(dstport, protocolName));
      }
    }
  }

  // ---------------------------------------------------------------------------------------------
  // The report

  const TagHeader: string := "Tag Counts:\n\nTag,Count\n"
  const PortHeader: string := "\nPort/Protocol Combination Counts:\n\nPort,Protocol,Count\n"

  predicate AllIn(order: seq<string>, counts: Counts) {
    forall k :: 0 <= k < |order| ==> order[k] in counts
  }

  /** The rows of the tag section, for the tags in the given order: tag, count. */
  function TagRows(order: seq<string>, counts: Counts): string
    requires AllIn(order, counts)
  {
    if order == [] then []
    else
      var tag := order[|order| - 1];
      TagRows(order[..|order| - 1], counts) + Csv.WriteRecord([tag, Itoa(counts[tag])])
  }

  /** The rows of the port section, for the keys in the given order: port, protocol, count. A key
      that does not split at commas into exactly two pieces gives no row. */
  function PortRows(order: seq<string>, counts: Counts): string
    requires AllIn(order, counts)
  {
    if order == [] then []
    else
      var key := order[|order| - 1];
      PortRows(order[..|order| - 1], counts) + PortRow(key, counts[key])
  }

  /** The record a key contributes to the port section: one exactly when the key splits at commas
      into two pieces. */
  function PortRow(key: string, count: nat): (r: string)
    ensures r != [] <==> |Split(key, ',')| == 2
  {
    var parts := Split(key, ',');
    if |parts| == 2 then Csv.WriteRecord([parts[0], parts[1], Itoa(count)]) else []
  }

  lemma TagRowsStep(order: seq<string>, counts: Counts, i: nat)
    requires i < |order| && AllIn(order, counts)
    ensures AllIn(order[..i], counts) && AllIn(order[..i + 1], counts)
    ensures TagRows(order[..i + 1], counts)
      == TagRows(order[..i], counts) + Csv.WriteRecord([order[i], Itoa(counts[order[i]])])
  {
    assert order[..i + 1][..i] == order[..i];
  }

  lemma PortRowsStep(order: seq<string>, counts: Counts, i: nat)
    requires i < |order| && AllIn(order, counts)
    ensures AllIn(order[..i], counts) && AllIn(order[..i + 1], counts)
    ensures PortRows(order[..i + 1], counts) == PortRows(order[..i], counts) + PortRow(order[i], counts[order[i]])
  {
    assert order[..i + 1][..i] == order[..i];
  }

  /** The port of a key, as a number when `strconv.Atoi` accepts the text before the first comma. */
  function PortNumber(key: string): (r: Option<int>)
    ensures ',' !in key ==> r == Atoi(key)
  {
    if ',' !in key then
      SplitNoSeparator(key, ',');
      Atoi(Split(key, ',')[0])
    else
      Atoi(Split(key, ',')[0])
  }

  /** The protocol of a key: the text between its first and second comma, and empty when the key
      has no comma. */
  function ProtocolPart(key: string): (r: string)
    ensures ',' !in r
  {
    SplitPiecesLackSeparator(key, ',');
    var parts := Split(key, ',');
    if |parts| >= 2 then parts[1] else []
  }

  /** The order of the port section: by port number, then by protocol name; when either port is
      not a number, by the whole keys as strings. */
  predicate PortKeyLess(a: string, b: string)
    ensures PortKeyLess(a, b) ==> a != b
  {
    LexLessIrreflexive(a);
    LexLessIrreflexive(ProtocolPart(a));
    var portA, portB := PortNumber(a), PortNumber(b);
    if portA.None? || portB.None? then LexLess(a, b)
    else if portA.value != portB.value then portA.value < portB.value
    else LexLess(ProtocolPart(a), ProtocolPart(b))
  }

  /** Keys whose ports parse to the same number and whose protocols are equal compare equal both
      ways, whatever the spelling of the ports. */
  lemma SamePortNumberTies(portA: string, portB: string, protocolName: string)
    requires ',' !in portA && ',' !in portB && ',' !in protocolName
    requires Atoi(portA).Some? && Atoi(portA) == Atoi(portB)
    ensures !PortKeyLess(PortProtoKey(portA, protocolName), PortProtoKey(portB, protocolName))
    ensures !PortKeyLess(PortProtoKey(portB, protocolName), PortProtoKey(portA, protocolName))
  {
    KeyParts(portA, protocolName);
    KeyParts(portB, protocolName);
    LexLessIrreflexive(protocolName);
  }

  /** "80,tcp" and "080,tcp" are different keys that compare equal both ways. `sort.Slice` is not
      stable, so their order in the report follows the map iteration order. */
  lemma EqualKeys()
    ensures PortProtoKey("80", "tcp") != PortProtoKey("080", "tcp")
    ensures !PortKeyLess(PortProtoKey("80", "tcp"), PortProtoKey("080", "tcp"))
    ensures !PortKeyLess(PortProtoKey("080", "tcp"), PortProtoKey("80", "tcp"))
  {
    assert Atoi("80") == Some(80) by {
      assert AllDigits("80") && "80"[..1] == "8";
      assert DigitsValue("80") == 10 * DigitsValue("8") + 0;
    }
    assert Atoi("080") == Some(80) by {
      assert AllDigits("080") && "080"[..2] == "08" && "08"[..1] == "0";
      assert DigitsValue("08") == 10 * DigitsValue("0") + 8;
      assert DigitsValue("080") == 10 * DigitsValue("08") + 0;
    }
    SamePortNumberTies("80", "080", "tcp");
    assert PortProtoKey("80", "tcp")[0] != PortProtoKey("080", "tcp")[0];
  }

  /** The comparator never puts two keys each before the other, numeric ports or not. */
  lemma PortKeyLessAsymmetric(a: string, b: string)
    ensures PortKeyLess(a, b) ==> !PortKeyLess(b, a)
  {
    if PortKeyLess(a, b) && PortKeyLess(b, a) {
      if PortNumber(a).None? || PortNumber(b).None? {
        LexLessTransitive(a, b, a);
        LexLessIrreflexive(a);
      } else {
        LexLessTransitive(ProtocolPart(a), ProtocolPart(b), ProtocolPart(a));
        LexLessIrreflexive(ProtocolPart(a));
      }
    }
  }

  predicate NumericPorts(keys: set<string>) {
    forall k :: k in keys ==> PortNumber(k).Some?
  }

  /** Keys with numeric ports come in ascending port order, and keys with the same port number in
      ascending protocol order. */
  predicate PortOrdered(s: seq<string>) {
    forall i, j :: 0 <= i < j < |s| && PortNumber(s[i]).Some? && PortNumber(s[j]).Some? ==>
      || PortNumber(s[i]).value < PortNumber(s[j]).value
      || (PortNumber(s[i]).value == PortNumber(s[j]).value
          && !LexLess(ProtocolPart(s[j]), ProtocolPart(s[i])))
  }

  /** When every port is a number, the comparator is a strict order. */
  lemma PortKeyLessStrictOrder(keys: set<string>)
    requires NumericPorts(keys)
    ensures StrictOrderOn(PortKeyLess, keys)
  {
    forall a | a in keys ensures !PortKeyLess(a, a) {
      LexLessIrreflexive(ProtocolPart(a));
    }
    forall a, b, c | a in keys && b in keys && c in keys && PortKeyLess(a, b) && PortKeyLess(b, c)
      ensures PortKeyLess(a, c)
    {
      if PortNumber(a).value == PortNumber(b).value == PortNumber(c).value {
        LexLessTransitive(ProtocolPart(a), ProtocolPart(b), ProtocolPart(c));
      }
    }
  }

  /** With a port that is not a number among numeric ones the comparator is not transitive, and the
      order of the port section is then not determined: "10,tcp" is before "1a,tcp" as strings,
      "1a,tcp" before "9,tcp" as strings (MixedPortsStringOrder), and yet "9,tcp" is before
      "10,tcp" as numbers (MixedPortsNumericOrder). */
  lemma MixedPortsStringOrder()
    ensures PortKeyLess("10,tcp", "1a,tcp")
    ensures PortKeyLess("1a,tcp", "9,tcp")
  {
    assert PortNumber("1a,tcp") == None by {
      KeyParts("1a", "tcp");
      assert !IsDigit("1a"[1]);
    }
    assert LexLess("10,tcp", "1a,tcp") by {
      assert "10,tcp"[1..] == "0,tcp" && "1a,tcp"[1..] == "a,tcp";
    }
  }

  /** Keys whose ports are both numbers compare by port number first. */
  lemma NumericPortsFirst(portA: string, portB: string, protocolName: string)
    requires ',' !in portA && ',' !in portB && ',' !in protocolName
    requires Atoi(portA).Some? && Atoi(portB).Some? && Atoi(portA).value < Atoi(portB).value
    ensures PortKeyLess(PortProtoKey(portA, protocolName), PortProtoKey(portB, protocolName))
  {
    KeyParts(portA, protocolName);
    KeyParts(portB, protocolName);
  }

  lemma MixedPortsNumericOrder()
    ensures PortKeyLess(PortProtoKey("9", "tcp"), PortProtoKey("10", "tcp"))
  {
    assert Atoi("10") == Some(10) by {
      assert AllDigits("10") && "10"[..1] == "1";
      assert DigitsValue("10") == 10 * DigitsValue("1") + 0;
    }
    assert Atoi("9") == Some(9) by {
      assert AllDigits("9") && DigitsValue("9") == 9;
    }
    NumericPortsFirst("9", "10", "tcp");
  }

  /** The tags in report order: byte-wise ascending, each once. */
  lemma SortedTags(keys: seq<string>)
    requires NoDuplicates(keys)
    ensures StrictlyAscending(SortBy(keys, LexLess))
    ensures Elems(SortBy(keys, LexLess)) == Elems(keys)
  {
    var sorted := SortBy(keys, LexLess);
    LexLessStrictOrder(Elems(keys));
    SortBySorted(keys, LexLess);
    NoDuplicatesOfPermutation(keys, sorted);
    SortedDistinctAscending(sorted);
    ElemsOfMultiset(keys, sorted);
  }

  /** The port/protocol keys in report order: each once, ordered when every port is numeric. */
  lemma SortedPortKeys(keys: seq<string>)
    requires NoDuplicates(keys)
    ensures NoDuplicates(SortBy(keys, PortKeyLess))
    ensures Elems(SortBy(keys, PortKeyLess)) == Elems(keys)
    ensures NumericPorts(Elems(keys)) ==> PortOrdered(SortBy(keys, PortKeyLess))
  {
    var sorted := SortBy(keys, PortKeyLess);
    NoDuplicatesOfPermutation(keys, sorted);
    ElemsOfMultiset(keys, sorted);
    if NumericPorts(Elems(keys)) {
      PortKeyLessStrictOrder(Elems(keys));
      SortBySorted(keys, PortKeyLess);
      forall i, j | 0 <= i < j < |sorted| ensures !PortKeyLess(sorted[j], sorted[i]) {
      }
      assert forall k :: 0 <= k < |sorted| ==> sorted[k] in Elems(keys);
    }
  }

  /** No two different keys have the same port number and protocol, as "80,tcp" and "080,tcp" do. */
  predicate DistinctPorts(keys: set<string>) {
    forall a, b :: a in keys && b in keys && a != b ==>
      PortNumber(a) != PortNumber(b) || ProtocolPart(a) != ProtocolPart(b)
  }

  /** With numeric, distinct ports, a listing in port-then-protocol order is strictly ascending under
      the comparator. */
  lemma PortOrderedAscending(s: seq<string>)
    requires NumericPorts(Elems(s)) && DistinctPorts(Elems(s))
    requires NoDuplicates(s) && PortOrdered(s)
    ensures AscendingBy(s, PortKeyLess)
  {
    forall i, j | 0 <= i < j < |s| ensures PortKeyLess(s[i], s[j]) {
      assert s[i] in Elems(s) && s[j] in Elems(s);
      if ProtocolPart(s[i]) != ProtocolPart(s[j]) {
        LexLessTotal(ProtocolPart(s[i]), ProtocolPart(s[j]));
      }
    }
  }

  /** With numeric, distinct ports there is only one port-then-protocol listing of the keys: the
      port section is then the same whatever order the map iteration produced. */
  lemma PortOrderUnique(keys: set<string>, a: seq<string>, b: seq<string>)
    requires NumericPorts(keys) && DistinctPorts(keys)
    requires Elems(a) == keys && NoDuplicates(a) && PortOrdered(a)
    requires Elems(b) == keys && NoDuplicates(b) && PortOrdered(b)
    ensures a == b
  {
    PortOrderedAscending(a);
    PortOrderedAscending(b);
    PortKeyLessStrictOrder(keys);
    AscendingByUnique(a, b, PortKeyLess);
  }

  /** A reference listing of the keys, fixed by the key set alone and sorted by the comparator. The
      program's sort yields exactly this listing when every port is numeric and no two keys share
      port number and protocol (`PortOrderUnique`); otherwise it may yield another. */
  ghost function PortOrder(keys: set<string>): (r: seq<string>)
    ensures Elems(r) == keys && NoDuplicates(r)
    ensures NumericPorts(keys) ==> PortOrdered(r)
  {
    var s := AscendingKeys(keys);
    AscendingNoDuplicates(s);
    SortedPortKeys(s);
    SortBy(s, PortKeyLess)
  }

  lemma ElemsAllIn(order: seq<string>, counts: Counts)
    requires Elems(order) == counts.Keys
    ensures AllIn(order, counts)
  {
    assert forall k :: 0 <= k < |order| ==> order[k] in Elems(order);
  }

  /** The keys of a table, each once, in whatever order the map iteration gives. */
  method CollectKeys(m: Counts) returns (keys: seq<string>)
    ensures Elems(keys) == m.Keys && NoDuplicates(keys)
  {
    keys := [];
    var rest := m.Keys;
    while rest != {}
      invariant rest !! Elems(keys) && rest + Elems(keys) == m.Keys
      invariant NoDuplicates(keys)
      decreases |rest|
    {
      var key :| key in rest;
      AppendFresh(keys, key);
      keys := keys + [key];
      rest := rest - {key};
    }
  }

  /** `WriteOutput`, with the file contents as the result: the tag section with the tags in
      ascending order, then the port/protocol section with the keys ordered by the comparator.
      The tag section depends on the tag table only; `portProtoKeys` is the order the port
      section was written in. When every port is numeric, the comparator fixes that order up to
      keys it finds equivalent; otherwise it may depend on the map iteration order. */
  method WriteOutput(tagCounts: Counts, portProtocolCounts: Counts)
    returns (out: string, ghost portProtoKeys: seq<string>)
    ensures AllIn(AscendingKeys(tagCounts.Keys), tagCounts)
    ensures TagHeader + TagRows(AscendingKeys(tagCounts.Keys), tagCounts) + PortHeader <= out
    ensures Elems(portProtoKeys) == portProtocolCounts.Keys && NoDuplicates(portProtoKeys)
    ensures NumericPorts(portProtocolCounts.Keys) ==> PortOrdered(portProtoKeys)
    ensures AllIn(portProtoKeys, portProtocolCounts)
    ensures out == TagHeader + TagRows(AscendingKeys(tagCounts.Keys), tagCounts) + PortHeader
                   + PortRows(portProtoKeys, portProtocolCounts)
    ensures NumericPorts(portProtocolCounts.Keys) && DistinctPorts(portProtocolCounts.Keys) ==>
      && AllIn(PortOrder(portProtocolCounts.Keys), portProtocolCounts)
      && out == TagHeader + TagRows(AscendingKeys(tagCounts.Keys), tagCounts) + PortHeader
                + PortRows(PortOrder(portProtocolCounts.Keys), portProtocolCounts)
  {
    var tagSection := WriteTagSection(tagCounts);
    var portSection;
    portSection, portProtoKeys := WritePortSection(portProtocolCounts);
    out := TagHeader + tagSection + PortHeader + portSection;
  }

  /** The rows of the tag section: one "tag,count" record per tag, the tags in ascending order.
      Sorting the keys gives the one ascending listing of them, whatever order the map iteration
      produced them in. */
  method WriteTagSection(tagCounts: Counts) returns (section: string)
    ensures AllIn(AscendingKeys(tagCounts.Keys), tagCounts)
    ensures section == TagRows(AscendingKeys(tagCounts.Keys), tagCounts)
  {
    var tagKeys := CollectKeys(tagCounts);
    var sortedTags := SortBy(tagKeys, LexLess);
    SortedTags(tagKeys);
    AscendingUnique(sortedTags, AscendingKeys(tagCounts.Keys));
    ElemsAllIn(sortedTags, tagCounts);
    section := [];
    for i := 0 to |sortedTags|
      invariant section == TagRows(sortedTags[..i], tagCounts)
    {
      TagRowsStep(sortedTags, tagCounts, i);
      var tag := sortedTags[i];
      var count := tagCounts[tag];
      section := section + Csv.WriteRecord([tag, Itoa(count)]);
    }
    assert sortedTags[..|sortedTags|] == sortedTags;
  }

  /** The rows of the port/protocol section: the keys sorted by the comparator, one
      "port,protocol,count" record for each key that splits into exactly two pieces. */
  method WritePortSection(portProtocolCounts: Counts) returns (section: string, ghost portProtoKeys: seq<string>)
    ensures Elems(portProtoKeys) == portProtocolCounts.Keys && NoDuplicates(portProtoKeys)
    ensures NumericPorts(portProtocolCounts.Keys) ==> PortOrdered(portProtoKeys)
    ensures AllIn(portProtoKeys, portProtocolCounts)
    ensures section == PortRows(portProtoKeys, portProtocolCounts)
    ensures NumericPorts(portProtocolCounts.Keys) && DistinctPorts(portProtocolCounts.Keys) ==>
      && AllIn(PortOrder(portProtocolCounts.Keys), portProtocolCounts)
      && section == PortRows(PortOrder(portProtocolCounts.Keys), portProtocolCounts)
  {
    var keys := CollectKeys(portProtocolCounts);
    var sortedKeys := SortBy(keys, PortKeyLess);
    SortedPortKeys(keys);
    ElemsAllIn(sortedKeys, portProtocolCounts);
    portProtoKeys := sortedKeys;
    section := [];
    for i := 0 to |sortedKeys|
      invariant section == PortRows(sortedKeys[..i], portProtocolCounts)
    {
      PortRowsStep(sortedKeys, portProtocolCounts, i);
      var key := sortedKeys[i];
      var count := portProtocolCounts[key];
      var parts := Split(key, ',');
      if |parts| == 2 {
        var port := parts[0];
        var protocol := parts[1];
        section := section + Csv.WriteRecord([port, protocol, Itoa(count)]);
      }
    }
    assert sortedKeys[..|sortedKeys|] == sortedKeys;
    var keySet := portProtocolCounts.Keys;
    if NumericPorts(keySet) && DistinctPorts(keySet) {
      PortOrderUnique(keySet, sortedKeys, PortOrder(keySet));
    }
  }

  // ---------------------------------------------------------------------------------------------
  // Properties of the report

  lemma DigitsNeedNoQuotes(s: string)
    requires s != [] && AllDigits(s)
    ensures !Csv.NeedsQuotes(s)
  {
    assert IsDigit(s[0]);
  }

  /** A tag that needs no quoting is written as "tag,count". */
  lemma TagRowPlain(tag: string, count: nat)
    requires !Csv.NeedsQuotes(tag)
    ensures Csv.WriteRecord([tag, Itoa(count)]) == tag + "," + Itoa(count) + "\n"
  {
    DigitsNeedNoQuotes(Itoa(count));
    Csv.WriteFieldsPlain([tag, Itoa(count)]);
  }

  lemma NamesNeedNoQuotes(name: string)
    requires name in ProtocolNames
    ensures !Csv.NeedsQuotes(name)
  {
    NamesHaveNoComma(name);
    assert !IsSpace(name[0]);
  }

  /** A counted flow whose port token contains a comma is in the table but gets no row: its key
      splits into more than two pieces. */
  lemma CommaInPortDropsRow(dstport: string, protocolName: string, count: nat)
    requires ',' in dstport && protocolName in ProtocolNames
    ensures PortRow(PortProtoKey(dstport, protocolName), count) == []
  {
    var k :| 0 <= k < |dstport| && dstport[k] == ',';
    assert IndexOf(dstport, ',') < |dstport|;
    NamesHaveNoComma(protocolName);
    SplitConcat(dstport, protocolName, ',');
    SplitNoSeparator(protocolName, ',');
  }

  /** A key the aggregator built from a port without commas or quoting is written back as the
      key itself followed by its count. */
  lemma PortRowOfKey(dstport: string, protocolName: string, count: nat)
    requires ',' !in dstport && !Csv.NeedsQuotes(dstport) && protocolName in ProtocolNames
    ensures PortRow(PortProtoKey(dstport, protocolName), count)
         == PortProtoKey(dstport, protocolName) + "," + Itoa(count) + "\n"
  {
    var key := PortProtoKey(dstport, protocolName);
    var fields := [dstport, protocolName, Itoa(count)];
    assert Split(key, ',') == [dstport, protocolName] by {
      KeySplitsInTwo(dstport, protocolName);
    }
    assert Csv.WriteFields(fields) == Join(fields, ",") by {
      NamesNeedNoQuotes(protocolName);
      DigitsNeedNoQuotes(Itoa(count));
      Csv.WriteFieldsPlain(fields);
    }
    JoinThree(dstport, protocolName, Itoa(count), ",");
  }
}
