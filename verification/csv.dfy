/** Go's `encoding/csv`, as far as the program relies on it: the records its reader yields, and the
    text its writer (comma ',', LF line endings) produces for a record. */
module Csv {
  import opened GoStrings

  /** What a call to `Read` on the reader yields for one line of input: either a read error (a bare
      quote, a wrong field count, ...) or the list of fields of the record. Blank lines are skipped
      by the reader itself and never reach the caller. */
  datatype ReadResult = ReadError | Record(fields: seq<string>)

  // ---------------------------------------------------------------------------------------------
  // The writer

  /** Whether the writer encloses a field in double quotes: a non-empty field that is exactly
      `\.`, contains a comma, a double quote, CR or LF, or starts with white space. */
  predicate NeedsQuotes(field: string)
    ensures ',' in field || '"' in field || '\n' in field ==> NeedsQuotes(field)
  {
    && field != []
    && (|| field == "\\."
        || ',' in field || '"' in field || '\r' in field || '\n' in field
        || IsSpace(field[0]))
  }

  /** Inside quotes, every double quote is written twice. */
  function EscapeQuotes(s: string): string {
    if s == [] then []
    else (if s[0] == '"' then "\"\"" else [s[0]]) + EscapeQuotes(s[1..])
  }

  /** How a reader undoes the escaping: a doubled quote stands for one. */
  function UnescapeQuotes(s: string): string
    decreases |s|
  {
    if s == [] then []
    else if |s| >= 2 && s[0] == '"' && s[1] == '"' then "\"" + UnescapeQuotes(s[2..])
    else [s[0]] + UnescapeQuotes(s[1..])
  }

  lemma {:induction false} UnescapeEscape(s: string)
    ensures UnescapeQuotes(EscapeQuotes(s)) == s
    decreases |s|
  {
    if s != [] {
      var rest := EscapeQuotes(s[1..]);
      UnescapeEscape(s[1..]);
      if s[0] == '"' {
        assert ("\"\"" + rest)[2..] == rest;
      } else {
        assert ([s[0]] + rest)[1..] == rest;
      }
      assert [s[0]] + s[1..] == s;
    }
  }

  /** One field as written: unchanged when it needs no quotes; otherwise quoted, and reading the
      quoted text back gives the field. */
  function WriteField(field: string): (r: string)
    ensures !NeedsQuotes(field) ==> r == field
    ensures NeedsQuotes(field) ==>
      |r| >= 2 && r[0] == '"' && r[|r| - 1] == '"' && UnescapeQuotes(r[1..|r| - 1]) == field
  {
    if NeedsQuotes(field) then
      var r := "\"" + EscapeQuotes(field) + "\"";
      assert r[1..|r| - 1] == EscapeQuotes(field);
      UnescapeEscape(field);
      r
    else field
  }

  /** The fields of a record, each written and separated by commas. */
  function WriteFields(fields: seq<string>): string {
    if fields == [] then []
    else if |fields| == 1 then WriteField(fields[0])
    else WriteField(fields[0]) + "," + WriteFields(fields[1..])
  }

  /** Fields none of which needs quoting are written as they are, joined by commas. */
  lemma {:induction false} WriteFieldsPlain(fields: seq<string>)
    requires forall k :: 0 <= k < |fields| ==> !NeedsQuotes(fields[k])
    ensures WriteFields(fields) == Join(fields, ",")
    decreases |fields|
  {
    if |fields| > 1 {
      WriteFieldsPlain(fields[1..]);
    }
  }

  /** `Write` of one record: its fields, then a line feed. A record whose fields need no quoting is
      the comma-joined fields and a line feed. */
  function WriteRecord(fields: seq<string>): (r: string)
    ensures r != [] && r[|r| - 1] == '\n'
    ensures (forall k :: 0 <= k < |fields| ==> !NeedsQuotes(fields[k])) ==> r == Join(fields, ",") + "\n"
  {
    if forall k :: 0 <= k < |fields| ==> !NeedsQuotes(fields[k]) then
      WriteFieldsPlain(fields);
      WriteFields(fields) + "\n"
    else
      WriteFields(fields) + "\n"
  }
}
