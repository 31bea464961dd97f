/** The lookup table loader: a CSV file whose header names (in any order, in any case) the columns
    `dstport`, `protocol` and `tag` becomes a two-level map, destination port -> protocol name -> tag. */
module Lookup {
  import opened Wrappers
  import opened GoStrings
  import Csv

  /** Destination port -> lower-case protocol name -> tag. */
  type LookupMap = map<string, map<string, string>>

  datatype LoadError =
    | HeaderUnreadable   // the header record could not be read (also: an empty file)
    | MissingColumns     // one of dstport, protocol, tag is not among the headers
    | RowUnreadable      // a later record could not be read, or has the wrong number of fields

  /** The positions of the three columns the loader uses. */
  datatype Columns = Columns(dstport: nat, protocol: nat, tag: nat) {
    predicate Fit(width: nat) {
      dstport < width && protocol < width && tag < width
    }
  }

  /** The two-level lookup: a tag only when both the port and, under it, the protocol are present.
      A well-formed table yields only non-empty trimmed tags. */
  function Get(m: LookupMap, port: string, proto: string): (r: Option<string>)
    ensures r.Some? ==> port in m && proto in m[port]
    ensures WellFormed(m) && r.Some? ==> ValidCell(r.value)
  {
    if port in m && proto in m[port] then Some(m[port][proto]) else None
  }

  /** A non-empty string without white space at either end. */
  predicate ValidCell(s: string) {
    s != [] && Trimmed(s)
  }

  predicate NoUpperCase(s: string) {
    forall i :: 0 <= i < |s| ==> !('A' <= s[i] <= 'Z')
  }

  /** What every loaded table satisfies: ports, protocols and tags are non-empty and trimmed,
      protocols are lower-case, and no port has an empty inner map. */
  predicate WellFormed(m: LookupMap) {
    forall port :: port in m ==>
      && ValidCell(port)
      && m[port] != map[]
      && forall proto :: proto in m[port] ==>
           ValidCell(proto) && NoUpperCase(proto) && ValidCell(m[port][proto])
  }

  // ---------------------------------------------------------------------------------------------
  // Header detection

  /** A header cell as the loader compares it: trimmed, then lower-cased. */
  function Normalize(header: string): string {
    ToLower(TrimSpace(header))
  }

  /** Every header cell, normalized. */
  function Normalized(headers: seq<string>): (names: seq<string>)
    ensures |names| == |headers|
    ensures forall j :: 0 <= j < |headers| ==> names[j] == Normalize(headers[j])
  {
    seq(|headers|, j requires 0 <= j < |headers| => Normalize(headers[j]))
  }

  /** The position of the last name equal to `column`, or -1 when there is none. */
  function LastColumn(names: seq<string>, column: string): (r: int)
    ensures -1 <= r < |names|
    ensures r == -1 <==> forall j :: 0 <= j < |names| ==> names[j] != column
    ensures r >= 0 ==> names[r] == column
    ensures r >= 0 ==> forall j :: r < j < |names| ==> names[j] != column
  {
    if names == [] then -1
    else if names[|names| - 1] == column then |names| - 1
    else
      assert names == names[..|names| - 1] + [names[|names| - 1]];
      LastColumn(names[..|names| - 1], column)
  }

  lemma LastColumnStep(names: seq<string>, i: nat, column: string)
    requires i < |names|
    ensures LastColumn(names[..i + 1], column)
      == if names[i] == column then i else LastColumn(names[..i], column)
  {
    assert names[..i + 1][..i] == names[..i];
  }

  /** The scan over the header record: each header, trimmed and lower-cased, that names a column
      overwrites the index found so far, so each index ends up at the last header naming its
      column. */
  method FindColumns(headers: seq<string>) returns (dstportIdx: int, protocolIdx: int, tagIdx: int)
    ensures dstportIdx == LastColumn(Normalized(headers), "dstport")
    ensures protocolIdx == LastColumn(Normalized(headers), "protocol")
    ensures tagIdx == LastColumn(Normalized(headers), "tag")
  {
    dstportIdx, protocolIdx, tagIdx := ScanNames(Normalized(headers));
  }

  method ScanNames(names: seq<string>) returns (dstportIdx: int, protocolIdx: int, tagIdx: int)
    ensures dstportIdx == LastColumn(names, "dstport")
    ensures protocolIdx == LastColumn(names, "protocol")
    ensures tagIdx == LastColumn(names, "tag")
  {
    dstportIdx, protocolIdx, tagIdx := -1, -1, -1;
    for i := 0 to |names|
      invariant dstportIdx == LastColumn(names[..i], "dstport")
      invariant protocolIdx == LastColumn(names[..i], "protocol")
      invariant tagIdx == LastColumn(names[..i], "tag")
    {
      LastColumnStep(names, i, "dstport");
      LastColumnStep(names, i, "protocol");
      LastColumnStep(names, i, "tag");
      var name := names[i];
      if name == "dstport" {
        dstportIdx := i;
      } else if name == "protocol" {
        protocolIdx := i;
      } else if name == "tag" {
        tagIdx := i;
      }
    }
    assert names[..|names|] == names;
  }

  // ---------------------------------------------------------------------------------------------
  // Rows

  /** The three cells a record contributes: port and tag trimmed, protocol trimmed and lower-cased;
      nothing when any of the three is empty. */
  function Entry(fields: seq<string>, cols: Columns): (e: Option<(string, string, string)>)
    requires cols.Fit(|fields|)
    ensures e.Some? ==> ValidCell(e.value.0) && ValidCell(e.value.1) && ValidCell(e.value.2)
    ensures e.Some? ==> NoUpperCase(e.value.1)
    ensures e.Some? ==> e.value == (TrimSpace(fields[cols.dstport]),
                                    ToLower(TrimSpace(fields[cols.protocol])),
                                    TrimSpace(fields[cols.tag]))
    ensures e.None? <==>
      TrimSpace(fields[cols.dstport]) == [] || TrimSpace(fields[cols.protocol]) == []
      || TrimSpace(fields[cols.tag]) == []
  {
    var dstport := TrimSpace(fields[cols.dstport]);
    var protocol := ToLower(TrimSpace(fields[cols.protocol]));
    var tag := TrimSpace(fields[cols.tag]);
    TrimSpaceTrims(fields[cols.dstport]);
    TrimSpaceTrims(fields[cols.protocol]);
    TrimSpaceTrims(fields[cols.tag]);
    ToLowerTrimmed(TrimSpace(fields[cols.protocol]));
    if dstport == [] || protocol == [] || tag == [] then None else Some((dstport, protocol, tag))
  }

  /** `m[port][proto] = tag`, creating the inner map when the port is new. Only that one entry
      changes: every other (port, protocol) pair keeps its tag. */
  function Insert(m: LookupMap, port: string, proto: string, tag: string): (r: LookupMap)
    ensures r.Keys == m.Keys + {port}
    ensures forall p, q :: Get(r, p, q) == if p == port && q == proto then Some(tag) else Get(m, p, q)
    ensures forall p :: p in m && p != port ==> r[p] == m[p]
    ensures proto in r[port]
  {
    var inner := if port in m then m[port] else map[];
    m[port := inner[proto := tag]]
  }

  /** Creating the inner map when the port is new and then storing the tag in it is `Insert`. */
  lemma InsertInPlace(m: LookupMap, r: LookupMap, port: string, proto: string, tag: string)
    requires r == (if port in m then m else m[port := map[]])[port := (if port in m then m else m[port := map[]])[port][proto := tag]]
    ensures r == Insert(m, port, proto, tag)
  {
  }

  /** A record the reader delivers whole: not a read error, and as many fields as the header
      (the CSV reader fixes the field count from the first record). */
  predicate Fits(row: Csv.ReadResult, width: nat) {
    row.Record? && |row.fields| == width
  }

  /** The table built from the records after the header, in order; the first unreadable record
      makes the whole load fail. */
  function Build(rows: seq<Csv.ReadResult>, width: nat, cols: Columns): (r: Result<LookupMap, LoadError>)
    requires cols.Fit(width)
    ensures r.Err? ==> r.error == RowUnreadable
    ensures r.Ok? ==> WellFormed(r.value)
  {
    if rows == [] then Ok(map[])
    else
      var last := rows[|rows| - 1];
      match Build(rows[..|rows| - 1], width, cols)
      case Err(e) => Err(e)
      case Ok(m) =>
        if !Fits(last, width) then Err(RowUnreadable)
        else
          match Entry(last.fields, cols)
          case None => Ok(m)
          case Some((port, proto, tag)) =>
            InsertWellFormed(m, port, proto, tag);
            Ok(Insert(m, port, proto, tag))
  }

  lemma InsertWellFormed(m: LookupMap, port: string, proto: string, tag: string)
    requires WellFormed(m) && ValidCell(port) && ValidCell(proto) && NoUpperCase(proto) && ValidCell(tag)
    ensures WellFormed(Insert(m, port, proto, tag))
  {
    var inner := if port in m then m[port] else map[];
    var updated := inner[proto := tag];
    var r := m[port := updated];
    assert Insert(m, port, proto, tag) == r;
    forall p | p in r
      ensures ValidCell(p) && r[p] != map[]
      ensures forall q :: q in r[p] ==> ValidCell(q) && NoUpperCase(q) && ValidCell(r[p][q])
    {
      if p == port {
        assert r[p] == updated;
      } else {
        assert r[p] == m[p];
      }
    }
  }

  /** The whole load: header record first, then the rest. */
  function Load(header: Csv.ReadResult, rows: seq<Csv.ReadResult>): (r: Result<LookupMap, LoadError>)
    ensures r == Err(HeaderUnreadable) <==> header.ReadError?
    ensures r.Ok? ==> WellFormed(r.value)
  {
    if header.ReadError? then Err(HeaderUnreadable)
    else
      var headers := header.fields;
      var names := Normalized(headers);
      var d, p, t := LastColumn(names, "dstport"), LastColumn(names, "protocol"), LastColumn(names, "tag");
      if d == -1 || p == -1 || t == -1 then Err(MissingColumns)
      else Build(rows, |headers|, Columns(d, p, t))
  }

  /** `LoadLookupTable`, with the file already read as a header record and the records after it. */
  method LoadLookupTable(header: Csv.ReadResult, rows: seq<Csv.ReadResult>) returns (result: Result<LookupMap, LoadError>)
    ensures result == Load(header, rows)
  {
    if header.ReadError? {
      return Err(HeaderUnreadable);
    }
    var headers := header.fields;
    var dstportIdx, protocolIdx, tagIdx := FindColumns(headers);
    if dstportIdx == -1 || protocolIdx == -1 || tagIdx == -1 {
      return Err(MissingColumns);
    }
    result := ReadRecords(rows, |headers|, Columns(dstportIdx, protocolIdx, tagIdx));
  }

  /** The record loop of `LoadLookupTable`: trim the three cells, lower-case the protocol, skip
      incomplete records, and store the rest, creating a port's inner map on first use. */
  method ReadRecords(rows: seq<Csv.ReadResult>, width: nat, cols: Columns) returns (result: Result<LookupMap, LoadError>)
    requires cols.Fit(width)
    ensures result == Build(rows, width, cols)
  {
    var lookup: LookupMap := map[];
    var i := 0;
    while i < |rows|
      invariant 0 <= i <= |rows|
      invariant Build(rows[..i], width, cols) == Ok(lookup)
    {
      var record := rows[i];
      if record.ReadError? || |record.fields| != width {
        RowErrorAborts(rows, width, cols, i);
        return Err(RowUnreadable);
      }
      BuildStep(rows, width, cols, i, lookup);
      var dstport := TrimSpace(record.fields[cols.dstport]);
      var protocol := ToLower(TrimSpace(record.fields[cols.protocol]));
      var tag := TrimSpace(record.fields[cols.tag]);
      if dstport != [] && protocol != [] && tag != [] {
        ghost var before := lookup;
        if dstport !in lookup {
          lookup := lookup[dstport := map[]];
        }
        lookup := lookup[dstport := lookup[dstport][protocol := tag]];
        InsertInPlace(before, lookup, dstport, protocol, tag);
      }
      i := i + 1;
    }
    assert rows[..|rows|] == rows;
    return Ok(lookup);
  }

  // ---------------------------------------------------------------------------------------------
  // Properties of the load

  /** Extending the records by one readable record adds its entry, if it has one. */
  lemma BuildStep(rows: seq<Csv.ReadResult>, width: nat, cols: Columns, i: nat, m: LookupMap)
    requires cols.Fit(width) && i < |rows| && Fits(rows[i], width)
    requires Build(rows[..i], width, cols) == Ok(m)
    ensures Build(rows[..i + 1], width, cols) ==
      match Entry(rows[i].fields, cols)
      case None => Ok(m)
      case Some((port, proto, tag)) => Ok(Insert(m, port, proto, tag))
  {
    assert rows[..i + 1][..i] == rows[..i];
  }

  /** One record that cannot be read fails the whole load: no partial table is returned. */
  lemma {:induction false} RowErrorAborts(rows: seq<Csv.ReadResult>, width: nat, cols: Columns, k: nat)
    requires cols.Fit(width)
    requires k < |rows| && !Fits(rows[k], width)
    ensures Build(rows, width, cols) == Err(RowUnreadable)
    decreases |rows|
  {
    if k < |rows| - 1 {
      RowErrorAborts(rows[..|rows| - 1], width, cols, k);
    }
  }

  /** The load of the records succeeds exactly when every record can be read whole. */
  lemma {:induction false} BuildOk(rows: seq<Csv.ReadResult>, width: nat, cols: Columns)
    requires cols.Fit(width)
    ensures Build(rows, width, cols).Ok? <==> forall k :: 0 <= k < |rows| ==> Fits(rows[k], width)
    decreases |rows|
  {
    if rows != [] {
      var prefix, last := rows[..|rows| - 1], rows[|rows| - 1];
      BuildOk(prefix, width, cols);
      assert (forall k :: 0 <= k < |rows| ==> Fits(rows[k], width))
        <==> (forall k :: 0 <= k < |prefix| ==> Fits(prefix[k], width)) && Fits(last, width) by {
        assert forall k :: 0 <= k < |prefix| ==> prefix[k] == rows[k];
      }
      if !Fits(last, width) {
        RowErrorAborts(rows, width, cols, |rows| - 1);
      } else {
        assert Build(rows, width, cols).Ok? <==> Build(prefix, width, cols).Ok?;
      }
    }
  }

  /** A readable record with an empty port, protocol or tag leaves the table as it was. */
  lemma IncompleteRowSkipped(rows: seq<Csv.ReadResult>, row: Csv.ReadResult, width: nat, cols: Columns)
    requires cols.Fit(width) && Fits(row, width)
    requires TrimSpace(row.fields[cols.dstport]) == [] || TrimSpace(row.fields[cols.protocol]) == []
      || TrimSpace(row.fields[cols.tag]) == []
    ensures Build(rows + [row], width, cols) == Build(rows, width, cols)
  {
    assert (rows + [row])[..|rows|] == rows;
  }

  /** The tag of the last readable, complete record for (port, proto), if any. */
  function LastTag(rows: seq<Csv.ReadResult>, width: nat, cols: Columns, port: string, proto: string): Option<string>
    requires cols.Fit(width)
  {
    if rows == [] then None
    else
      var last := rows[|rows| - 1];
      var e := if Fits(last, width) then Entry(last.fields, cols) else None;
      if e.Some? && e.value.0 == port && e.value.1 == proto then Some(e.value.2)
      else LastTag(rows[..|rows| - 1], width, cols, port, proto)
  }

  /** Last write wins: in a loaded table, each (port, protocol) pair has the tag of the last record
      that names it, and the pairs no record names are absent. */
  lemma {:induction false} BuildLastWriteWins(rows: seq<Csv.ReadResult>, width: nat, cols: Columns)
    requires cols.Fit(width)
    requires Build(rows, width, cols).Ok?
    ensures forall p, q :: Get(Build(rows, width, cols).value, p, q) == LastTag(rows, width, cols, p, q)
    decreases |rows|
  {
    if rows != [] {
      BuildLastWriteWins(rows[..|rows| - 1], width, cols);
    }
  }

  /** No header cell names `column`. */
  predicate Absent(headers: seq<string>, column: string) {
    forall j :: 0 <= j < |headers| ==> Normalize(headers[j]) != column
  }

  /** The load fails with `MissingColumns` exactly when the header can be read but one of the
      three column names matches no header cell. */
  lemma MissingColumnsIff(header: Csv.ReadResult, rows: seq<Csv.ReadResult>)
    ensures Load(header, rows) == Err(MissingColumns) <==>
      header.Record? &&
      (Absent(header.fields, "dstport") || Absent(header.fields, "protocol") || Absent(header.fields, "tag"))
  {
    if header.Record? {
      var names := Normalized(header.fields);
      var d, p, t := LastColumn(names, "dstport"), LastColumn(names, "protocol"), LastColumn(names, "tag");
      if d != -1 && p != -1 && t != -1 {
        assert Build(rows, |header.fields|, Columns(d, p, t)).Err? ==>
          Build(rows, |header.fields|, Columns(d, p, t)).error == RowUnreadable;
      }
    }
  }

}
