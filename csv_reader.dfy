/** The text handling of `CSVReader::read_price_series`: the line tokenizer
    `parse_csv_line`, the value cleaner `clean_value`, the header lookup and
    the per-row extraction of the price and date. */
module CsvReader {
  import opened Results
  import opened Series

  // ---------------------------------------------------------------------
  // parse_csv_line: a two-state scanner. A `"` flips the in-quotes flag and
  // is dropped; a `,` outside quotes ends the current field; every other
  // character is appended to the current field.
  // ---------------------------------------------------------------------

  /** Scanner state: the finished fields, the field being built and the flag. */
  datatype Scan = Scan(fields: seq<string>, field: string, inQuotes: bool)

  function Step(st: Scan, c: char): Scan
  {
    if c == '"' then st.(inQuotes := !st.inQuotes)
    else if c == ',' && !st.inQuotes then Scan(st.fields + [st.field], "", st.inQuotes)
    else st.(field := st.field + [c])
  }

  /** The state after the first n characters of the line. */
  function ScanPrefix(line: string, n: nat): Scan
    requires n <= |line|
  {
    if n == 0 then Scan([], "", false) else Step(ScanPrefix(line, n - 1), line[n - 1])
  }

  /** The fields of a line: the finished ones and the last one. */
  function Fields(line: string): (r: seq<string>)
    ensures 1 <= |r|
  {
    var st := ScanPrefix(line, |line|);
    st.fields + [st.field]
  }

  /** `parse_csv_line(line)`. */
  method ParseCsvLine(line: string) returns (fields: seq<string>)
    ensures fields == Fields(line)
  {
    fields := [];
    var field := "";
    var inQuotes := false;
    var i := 0;
    while i < |line|
      invariant 0 <= i <= |line|
      invariant Scan(fields, field, inQuotes) == ScanPrefix(line, i)
    {
      var c := line[i];
      if c == '"' {
        inQuotes := !inQuotes;
      } else if c == ',' && !inQuotes {
        fields := fields + [field];
        field := "";
      } else {
        field := field + [c];
      }
      i := i + 1;
    }
    fields := fields + [field];
  }

  /** The number of `"` characters in s. */
  function QuoteCount(s: string): nat
  {
    if |s| == 0 then 0 else QuoteCount(s[..|s| - 1]) + (if s[|s| - 1] == '"' then 1 else 0)
  }

  /** The number of commas among line[..n] preceded by an even number of
      quotes, i.e. standing outside quotes. */
  function OutsideCommas(line: string, n: nat): nat
    requires n <= |line|
  {
    if n == 0 then 0
    else OutsideCommas(line, n - 1) + (if line[n - 1] == ',' && QuoteCount(line[..n - 1]) % 2 == 0 then 1 else 0)
  }

  /** The line with every `"` removed. */
  function RemoveQuotes(s: string): string
  {
    if |s| == 0 then "" else RemoveQuotes(s[..|s| - 1]) + (if s[|s| - 1] == '"' then "" else [s[|s| - 1]])
  }

  /** The fields joined with ",". */
  function Join(fs: seq<string>): string
  {
    if |fs| == 0 then ""
    else if |fs| == 1 then fs[0]
    else Join(fs[..|fs| - 1]) + "," + fs[|fs| - 1]
  }

  /** The in-quotes flag after n characters is the parity of the quotes seen. */
  lemma {:induction false} ScanQuotes(line: string, n: nat)
    requires n <= |line|
    ensures ScanPrefix(line, n).inQuotes <==> QuoteCount(line[..n]) % 2 == 1
  {
    if n > 0 {
      ScanQuotes(line, n - 1);
      assert line[..n][..n - 1] == line[..n - 1];
    }
  }

  /** Each comma outside quotes finishes exactly one field. */
  lemma {:induction false} ScanCount(line: string, n: nat)
    requires n <= |line|
    ensures |ScanPrefix(line, n).fields| == OutsideCommas(line, n)
  {
    if n > 0 {
      ScanCount(line, n - 1);
      ScanQuotes(line, n - 1);
    }
  }

  /** The fields so far, joined, are the characters so far without quotes. */
  lemma {:induction false} ScanJoin(line: string, n: nat)
    requires n <= |line|
    ensures Join(ScanPrefix(line, n).fields + [ScanPrefix(line, n).field]) == RemoveQuotes(line[..n])
  {
    if n > 0 {
      ScanJoin(line, n - 1);
      var st := ScanPrefix(line, n - 1);
      var c := line[n - 1];
      assert line[..n][..n - 1] == line[..n - 1];
      if c == '"' {
      } else if c == ',' && !st.inQuotes {
        JoinSnoc(st.fields + [st.field], "");
      } else {
        JoinExtendLast(st.fields, st.field, c);
      }
    }
  }

  /** No field built so far holds a quote. */
  lemma {:induction false} ScanNoQuote(line: string, n: nat)
    requires n <= |line|
    ensures forall k :: 0 <= k < |ScanPrefix(line, n).fields| ==> '"' !in ScanPrefix(line, n).fields[k]
    ensures '"' !in ScanPrefix(line, n).field
  {
    if n > 0 {
      ScanNoQuote(line, n - 1);
    }
  }

  lemma JoinSnoc(fs: seq<string>, f: string)
    requires 1 <= |fs|
    ensures Join(fs + [f]) == Join(fs) + "," + f
  {
    assert (fs + [f])[..|fs|] == fs;
  }

  lemma JoinExtendLast(fs: seq<string>, f: string, c: char)
    ensures Join(fs + [f + [c]]) == Join(fs + [f]) + [c]
  {
    if 0 < |fs| {
      assert (fs + [f + [c]])[..|fs|] == fs;
      assert (fs + [f])[..|fs|] == fs;
    }
  }

  /** A line has one field more than it has commas outside quotes. */
  lemma FieldCount(line: string)
    ensures |Fields(line)| == 1 + OutsideCommas(line, |line|)
  {
    ScanCount(line, |line|);
  }

  /** Joining the fields with "," gives back the line without its quotes: no
      character other than `"` is lost, and a quoted comma stays in its field. */
  lemma FieldsJoin(line: string)
    ensures Join(Fields(line)) == RemoveQuotes(line)
  {
    ScanJoin(line, |line|);
    assert line[..|line|] == line;
  }

  /** No field contains `"`. */
  lemma FieldsHaveNoQuotes(line: string)
    ensures forall k :: 0 <= k < |Fields(line)| ==> '"' !in Fields(line)[k]
  {
    ScanNoQuote(line, |line|);
    var st := ScanPrefix(line, |line|);
    assert Fields(line) == st.fields + [st.field];
  }

  /** A doubled quote toggles the flag twice and vanishes: `"a""b"` is the
      single field `ab`, where rule 7 of section 2 of RFC 4180 reads `a"b`. */
  lemma DoubledQuoteVanishes()
    ensures Fields("\"a\"\"b\"") == ["ab"]
  {
    var line := "\"a\"\"b\"";
    assert ScanPrefix(line, 1) == Scan([], "", true);
    assert ScanPrefix(line, 2) == Scan([], "a", true);
    assert ScanPrefix(line, 3) == Scan([], "a", false);
    assert ScanPrefix(line, 4) == Scan([], "a", true);
    assert ScanPrefix(line, 5) == Scan([], "ab", true);
    assert ScanPrefix(line, 6) == Scan([], "ab", false);
  }

  /** A comma inside quotes belongs to its field. */
  lemma QuotedCommaStays()
    ensures Fields("\"1,5\",x") == ["1,5", "x"]
  {
    var line := "\"1,5\",x";
    assert ScanPrefix(line, 1) == Scan([], "", true);
    assert ScanPrefix(line, 2) == Scan([], "1", true);
    assert ScanPrefix(line, 3) == Scan([], "1,", true);
    assert ScanPrefix(line, 4) == Scan([], "1,5", true);
    assert ScanPrefix(line, 5) == Scan([], "1,5", false);
    assert ScanPrefix(line, 6) == Scan(["1,5"], "", false);
    assert ScanPrefix(line, 7) == Scan(["1,5"], "x", false);
  }

  // ---------------------------------------------------------------------
  // clean_value: strip ' ' and '"' from the front, then from the back, then
  // erase every comma.
  // ---------------------------------------------------------------------

  predicate Trimmable(c: char)
  {
    c == ' ' || c == '"'
  }

  /** The first position at or after i that is not a space or a quote (|s|
      when there is none). */
  function FrontSkip(s: string, i: nat): (j: nat)
    requires i <= |s|
    ensures i <= j <= |s| && (j < |s| ==> !Trimmable(s[j]))
    decreases |s| - i
  {
    if i < |s| && Trimmable(s[i]) then FrontSkip(s, i + 1) else i
  }

  /** s without its leading run of spaces and quotes: a suffix of s that does
      not start with either. */
  function TrimFront(s: string): string
  {
    s[FrontSkip(s, 0)..]
  }

  /** Everything FrontSkip passes over is a space or a quote. */
  lemma {:induction false} FrontSkipPassesTrimmable(s: string, i: nat)
    requires i <= |s|
    ensures forall k :: i <= k < FrontSkip(s, i) ==> Trimmable(s[k])
    decreases |s| - i
  {
    if i < |s| && Trimmable(s[i]) {
      FrontSkipPassesTrimmable(s, i + 1);
    }
  }

  /** TrimFront keeps a suffix that does not start with a space or quote and
      drops only spaces and quotes. */
  lemma TrimFrontSuffix(s: string)
    ensures |TrimFront(s)| <= |s| && TrimFront(s) == s[|s| - |TrimFront(s)|..]
    ensures 0 < |TrimFront(s)| ==> !Trimmable(TrimFront(s)[0])
    ensures forall k :: 0 <= k < |s| - |TrimFront(s)| ==> Trimmable(s[k])
  {
    FrontSkipPassesTrimmable(s, 0);
  }

  /** The last position at or before j that does not follow a space or a
      quote (0 when there is none). */
  function BackSkip(s: string, j: nat): (e: nat)
    requires j <= |s|
    ensures e <= j && (0 < e ==> !Trimmable(s[e - 1]))
  {
    if 0 < j && Trimmable(s[j - 1]) then BackSkip(s, j - 1) else j
  }

  /** s without its trailing run of spaces and quotes: a prefix of s that
      does not end with either. */
  function TrimBack(s: string): string
  {
    s[..BackSkip(s, |s|)]
  }

  /** Everything BackSkip passes over is a space or a quote. */
  lemma {:induction false} BackSkipPassesTrimmable(s: string, j: nat)
    requires j <= |s|
    ensures forall k :: BackSkip(s, j) <= k < j ==> Trimmable(s[k])
  {
    if 0 < j && Trimmable(s[j - 1]) {
      BackSkipPassesTrimmable(s, j - 1);
    }
  }

  /** TrimBack keeps a prefix that does not end with a space or quote and
      drops only spaces and quotes. */
  lemma TrimBackPrefix(s: string)
    ensures |TrimBack(s)| <= |s| && TrimBack(s) == s[..|TrimBack(s)|]
    ensures 0 < |TrimBack(s)| ==> !Trimmable(TrimBack(s)[|TrimBack(s)| - 1])
    ensures forall k :: |TrimBack(s)| <= k < |s| ==> Trimmable(s[k])
  {
    BackSkipPassesTrimmable(s, |s|);
  }

  /** s with every comma erased. */
  function RemoveCommas(s: string): string
  {
    if |s| == 0 then ""
    else RemoveCommas(s[..|s| - 1]) + (if s[|s| - 1] == ',' then "" else [s[|s| - 1]])
  }

  /** What `clean_value(s)` returns. */
  function Cleaned(s: string): string
  {
    RemoveCommas(TrimBack(TrimFront(s)))
  }

  /** `clean_value(value)`: two trimming loops, then the in-place erase of
      every comma. */
  method CleanValue(value: string) returns (r: string)
    ensures r == Cleaned(value)
  {
    var v := value;
    ghost var k := 0;
    while 0 < |v| && Trimmable(v[0])
      invariant k <= |value| && v == value[k..]
      invariant FrontSkip(value, k) == FrontSkip(value, 0)
    {
      v := v[1..];
      k := k + 1;
    }
    ghost var t := v;
    while 0 < |v| && Trimmable(v[|v| - 1])
      invariant |v| <= |t| && v == t[..|v|]
      invariant BackSkip(t, |v|) == BackSkip(t, |t|)
    {
      v := v[..|v| - 1];
    }
    r := EraseCommas(v);
  }

  /** `value.erase(std::remove(value.begin(), value.end(), ','), value.end())`:
      the non-comma characters, in order. */
  method EraseCommas(v: string) returns (r: string)
    ensures r == RemoveCommas(v)
  {
    r := "";
    var j := 0;
    while j < |v|
      invariant 0 <= j <= |v|
      invariant r == RemoveCommas(v[..j])
    {
      assert v[..j + 1][..j] == v[..j];
      if v[j] != ',' {
        r := r + [v[j]];
      }
      j := j + 1;
    }
    assert v[..j] == v;
  }

  lemma {:induction false} RemoveCommasNoComma(s: string)
    ensures forall k :: 0 <= k < |RemoveCommas(s)| ==> RemoveCommas(s)[k] != ','
  {
    if 0 < |s| {
      RemoveCommasNoComma(s[..|s| - 1]);
    }
  }

  lemma {:induction false} RemoveCommasOfCommaFree(s: string)
    requires forall k :: 0 <= k < |s| ==> s[k] != ','
    ensures RemoveCommas(s) == s
  {
    if 0 < |s| {
      RemoveCommasOfCommaFree(s[..|s| - 1]);
    }
  }

  /** The cleaned value holds no comma. */
  lemma CleanedHasNoComma(s: string)
    ensures forall k :: 0 <= k < |Cleaned(s)| ==> Cleaned(s)[k] != ','
  {
    RemoveCommasNoComma(TrimBack(TrimFront(s)));
  }

  /** For a comma-free value, cleaning neither leaves a space or quote at
      either end nor drops anything between them. */
  lemma CleanedCommaFree(s: string)
    requires forall k :: 0 <= k < |s| ==> s[k] != ','
    ensures Cleaned(s) == TrimBack(TrimFront(s))
    ensures 0 < |Cleaned(s)| ==> !Trimmable(Cleaned(s)[0]) && !Trimmable(Cleaned(s)[|Cleaned(s)| - 1])
  {
    TrimmedCommaFree(s);
    RemoveCommasOfCommaFree(TrimBack(TrimFront(s)));
    TrimmedEnds(s);
  }

  /** Trimming a comma-free value leaves it comma-free. */
  lemma TrimmedCommaFree(s: string)
    requires forall k :: 0 <= k < |s| ==> s[k] != ','
    ensures forall k :: 0 <= k < |TrimBack(TrimFront(s))| ==> TrimBack(TrimFront(s))[k] != ','
  {
    var a, b := TrimmedSlice(s);
    var u := s[a..b];
    assert forall k :: 0 <= k < |u| ==> u[k] == s[a + k];
  }

  /** After trimming, neither end is a space or a quote. */
  lemma TrimmedEnds(s: string)
    ensures var u := TrimBack(TrimFront(s)); 0 < |u| ==> !Trimmable(u[0]) && !Trimmable(u[|u| - 1])
  {
    var t := TrimFront(s);
    var u := TrimBack(t);
    if 0 < |u| {
      assert u[0] == t[0];
    }
  }

  /** Trimming happens before the commas go, so a space in front of a
      trailing comma survives: `1 ,` cleans to `1 `. */
  lemma TrimBeforeErase()
    ensures Cleaned("1 ,") == "1 "
  {
    assert FrontSkip("1 ,", 0) == 0;
    assert TrimFront("1 ,") == "1 ,";
    assert BackSkip("1 ,", 3) == 3;
    assert TrimBack("1 ,") == "1 ,";
    assert "1 ,"[..2] == "1 ";
    assert "1 "[..1] == "1";
    assert "1"[..0] == "";
  }

  /** The characters of s at the positions keep marks, in order. */
  function Keep(s: string, keep: seq<bool>): string
    requires |keep| == |s|
  {
    if |s| == 0 then ""
    else Keep(s[..|s| - 1], keep[..|s| - 1]) + (if keep[|s| - 1] then [s[|s| - 1]] else "")
  }

  /** x is s with some characters left out. */
  ghost predicate IsSubsequence(x: string, s: string)
  {
    exists keep: seq<bool> :: |keep| == |s| && Keep(s, keep) == x
  }

  lemma {:induction false} KeepAppend(u: string, v: string, m: seq<bool>, n: seq<bool>)
    requires |m| == |u| && |n| == |v|
    ensures Keep(u + v, m + n) == Keep(u, m) + Keep(v, n)
  {
    if |v| == 0 {
      assert u + v == u && m + n == m;
    } else {
      var v', n' := v[..|v| - 1], n[..|v| - 1];
      KeepAppend(u, v', m, n');
      assert (u + v)[..|u + v| - 1] == u + v';
      assert (m + n)[..|m + n| - 1] == m + n';
    }
  }

  lemma {:induction false} KeepNothing(u: string, m: seq<bool>)
    requires |m| == |u| && forall k :: 0 <= k < |m| ==> !m[k]
    ensures Keep(u, m) == ""
  {
    if 0 < |u| {
      KeepNothing(u[..|u| - 1], m[..|u| - 1]);
    }
  }

  lemma {:induction false} KeepNonCommas(u: string, m: seq<bool>)
    requires |m| == |u| && forall k :: 0 <= k < |m| ==> (m[k] <==> u[k] != ',')
    ensures Keep(u, m) == RemoveCommas(u)
  {
    if 0 < |u| {
      KeepNonCommas(u[..|u| - 1], m[..|u| - 1]);
    }
  }

  /** n positions, none of them kept. */
  function Falses(n: nat): (r: seq<bool>)
    ensures |r| == n && forall k :: 0 <= k < n ==> !r[k]
  {
    seq(n, _ => false)
  }

  /** The positions of u that hold something other than a comma. */
  function NonCommaMarks(u: string): (r: seq<bool>)
    ensures |r| == |u| && forall k :: 0 <= k < |u| ==> (r[k] <==> u[k] != ',')
  {
    seq(|u|, k requires 0 <= k < |u| => u[k] != ',')
  }

  /** The cleaned value is a subsequence of the raw one. */
  lemma CleanedIsSubsequence(s: string)
    ensures IsSubsequence(Cleaned(s), s)
  {
    var a, b := TrimmedSlice(s);
    var marks := NonCommaMarks(s[a..b]);
    KeepNonCommas(s[a..b], marks);
    KeepSlice(s, a, b, marks);
    var keep := Falses(a) + marks + Falses(|s| - b);
    assert |keep| == |s| && Keep(s, keep) == Cleaned(s);
  }

  /** Trimming both ends leaves a slice s[a..b] of the value. */
  lemma TrimmedSlice(s: string) returns (a: nat, b: nat)
    ensures a <= b <= |s| && TrimBack(TrimFront(s)) == s[a..b]
  {
    var t := TrimFront(s);
    var u := TrimBack(t);
    a, b := |s| - |t|, |s| - |t| + |u|;
    assert t == s[a..] && u == t[..|u|];
    assert s[a..][..|u|] == s[a..b];
  }

  /** Marking only positions inside s[a..b] keeps what the inner marks keep
      from the slice. */
  lemma KeepSlice(s: string, a: nat, b: nat, inner: seq<bool>)
    requires a <= b <= |s| && |inner| == b - a
    ensures |Falses(a) + inner + Falses(|s| - b)| == |s|
    ensures Keep(s, Falses(a) + inner + Falses(|s| - b)) == Keep(s[a..b], inner)
  {
    var before, after := Falses(a), Falses(|s| - b);
    KeepNothing(s[..a], before);
    KeepNothing(s[b..], after);
    KeepAppend(s[..a], s[a..b], before, inner);
    KeepAppend(s[..a] + s[a..b], s[b..], before + inner, after);
    assert s[..a] + s[a..b] + s[b..] == s;
  }

  // ---------------------------------------------------------------------
  // The header: the cleaned header fields are searched for the price column
  // and the date column; the last match of each wins.
  // ---------------------------------------------------------------------

  /** The price column index and, if there is one, the date column index. */
  datatype Columns = Columns(price: nat, date: Option<nat>)

  /** The last index below n whose header is name, if any. */
  function LastMatch(hs: seq<string>, name: string, n: nat): (r: Option<nat>)
    requires n <= |hs|
    ensures r.None? <==> forall j :: 0 <= j < n ==> hs[j] != name
    ensures r.Some? ==> r.value < n && hs[r.value] == name
    ensures r.Some? ==> forall j :: r.value < j < n ==> hs[j] != name
  {
    if n == 0 then None else if hs[n - 1] == name then Some(n - 1) else LastMatch(hs, name, n - 1)
  }

  predicate IsDateHeader(h: string)
  {
    h == "Date" || h == "date"
  }

  /** The last index below n whose header is "Date" or "date", if any. */
  function LastDate(hs: seq<string>, n: nat): (r: Option<nat>)
    requires n <= |hs|
    ensures r.None? <==> forall j :: 0 <= j < n ==> !IsDateHeader(hs[j])
    ensures r.Some? ==> r.value < n && IsDateHeader(hs[r.value])
    ensures r.Some? ==> forall j :: r.value < j < n ==> !IsDateHeader(hs[j])
  {
    if n == 0 then None else if IsDateHeader(hs[n - 1]) then Some(n - 1) else LastDate(hs, n - 1)
  }

  /** The header-index loop: runtime_error when no header names the price
      column; otherwise the last price match and the last date match. */
  method FindColumns(headers: seq<string>, priceCol: string) returns (r: Result<Columns>)
    ensures r.Err? <==> LastMatch(headers, priceCol, |headers|).None?
    ensures r.Err? ==> r.error == RuntimeError
    ensures r.Ok? ==> r.value == Columns(LastMatch(headers, priceCol, |headers|).value, LastDate(headers, |headers|))
  {
    var priceIdx: Option<nat> := None;
    var dateIdx: Option<nat> := None;
    var i := 0;
    while i < |headers|
      invariant 0 <= i <= |headers|
      invariant priceIdx == LastMatch(headers, priceCol, i)
      invariant dateIdx == LastDate(headers, i)
    {
      if headers[i] == priceCol {
        priceIdx := Some(i);
      }
      if headers[i] == "Date" || headers[i] == "date" {
        dateIdx := Some(i);
      }
      i := i + 1;
    }
    if priceIdx.None? {
      return Err(RuntimeError);
    }
    r := Ok(Columns(priceIdx.value, dateIdx));
  }

  /** The header fields after cleaning. */
  function CleanedAll(fs: seq<string>): (r: seq<string>)
    ensures |r| == |fs|
  {
    seq(|fs|, i requires 0 <= i < |fs| => Cleaned(fs[i]))
  }

  /** `for (auto& h : headers) h = clean_value(h)`: each header replaced in
      place by its cleaned form. */
  method CleanHeaders(headers: seq<string>) returns (hs: seq<string>)
    ensures hs == CleanedAll(headers)
  {
    hs := headers;
    var i := 0;
    while i < |hs|
      invariant 0 <= i <= |hs| == |headers|
      invariant forall k :: 0 <= k < i ==> hs[k] == Cleaned(headers[k])
      invariant forall k :: i <= k < |hs| ==> hs[k] == headers[k]
    {
      var h := CleanValue(hs[i]);
      hs := hs[i := h];
      i := i + 1;
    }
    assert forall k :: 0 <= k < |hs| ==> hs[k] == CleanedAll(headers)[k];
  }

  /** The price column `read_price_series` looks for when none is given. */
  const DefaultPriceCol: string := "Close"

  /** The header line's handling: split, clean every field, locate columns;
      the price column defaults to "Close". */
  method ReadHeader(line: string, priceCol: string := DefaultPriceCol) returns (r: Result<Columns>)
    ensures r.Err? <==> LastMatch(CleanedAll(Fields(line)), priceCol, |Fields(line)|).None?
    ensures r.Err? ==> r.error == RuntimeError
    ensures r.Ok? ==> r.value.price == LastMatch(CleanedAll(Fields(line)), priceCol, |Fields(line)|).value
    ensures r.Ok? ==> r.value.date == LastDate(CleanedAll(Fields(line)), |Fields(line)|)
  {
    var fields := ParseCsvLine(line);
    var headers := CleanHeaders(fields);
    r := FindColumns(headers, priceCol);
  }

  // ---------------------------------------------------------------------
  // One data row: the price, read with the number parser, when the row has
  // the price column (0.0 otherwise); the cleaned date when it has the date
  // column (empty otherwise). The number parser `stod` is a parameter that
  // yields the number or the exception it throws (invalid_argument for text
  // that is not a number, out_of_range for one that overflows); its
  // exception ends the whole read.
  // ---------------------------------------------------------------------

  /** The price of a row, or the number parser's error. */
  function RecordPrice(fields: seq<string>, cols: Columns, stod: string -> Result<real>): Result<real>
  {
    if cols.price < |fields| then stod(Cleaned(fields[cols.price])) else Ok(0.0)
  }

  function RecordDate(fields: seq<string>, cols: Columns): string
  {
    if cols.date.Some? && cols.date.value < |fields| then Cleaned(fields[cols.date.value]) else ""
  }

  /** What one accepted row appends to the series. */
  datatype Row = Row(price: real, date: string)

  /** The body of the row loop for one line: the number parser's error, or
      the row's price and date. */
  method ParseRecord(line: string, cols: Columns, stod: string -> Result<real>) returns (r: Result<Row>)
    ensures r.Err? <==> RecordPrice(Fields(line), cols, stod).Err?
    ensures r.Err? ==> r.error == RecordPrice(Fields(line), cols, stod).error
    ensures r.Ok? ==> r.value == Row(RecordPrice(Fields(line), cols, stod).value, RecordDate(Fields(line), cols))
  {
    var fields := ParseCsvLine(line);
    var price := 0.0;
    var date := "";
    if cols.price < |fields| {
      var v := CleanValue(fields[cols.price]);
      var parsed := stod(v);
      if parsed.Err? {
        return Err(parsed.error);
      }
      price := parsed.value;
    }
    if cols.date.Some? && cols.date.value < |fields| {
      date := CleanValue(fields[cols.date.value]);
    }
    r := Ok(Row(price, date));
  }

  /** A row with no more commas outside quotes than the price column's index
      is too short to hold a price: it reads as 0.0 and the number parser is
      never called, so it cannot fail. */
  lemma ShortRowReadsZero(line: string, cols: Columns, stod: string -> Result<real>)
    requires OutsideCommas(line, |line|) < cols.price
    ensures RecordPrice(Fields(line), cols, stod) == Ok(0.0)
  {
    FieldCount(line);
  }

  /** The line `2020-01-02,` splits into the fields "2020-01-02" and "";
      with the price in column 1 the empty cell goes to the number parser,
      so the read fails with whatever it throws on "". */
  lemma EmptyPriceCellFails(stod: string -> Result<real>)
    requires stod("").Err?
    ensures RecordPrice(["2020-01-02", ""], Columns(1, Some(0)), stod).Err?
  {
    assert Cleaned("") == "";
  }

  /** Whether the number parser accepts the price of a line (always, when
      the line has no price column). */
  predicate Accepted(line: string, cols: Columns, stod: string -> Result<real>)
  {
    RecordPrice(Fields(line), cols, stod).Ok?
  }

  /** Accepted as a function value. */
  function AcceptedBy(cols: Columns, stod: string -> Result<real>): string -> bool
  {
    line => Accepted(line, cols, stod)
  }

  /** The first of the first n lines that ok rejects. */
  function FirstRejected(ok: string -> bool, lines: seq<string>, n: nat): (r: Option<nat>)
    requires n <= |lines|
    ensures r.Some? ==> r.value < n && !ok(lines[r.value])
  {
    if n == 0 then None
    else
      var prefix := FirstRejected(ok, lines, n - 1);
      if prefix.Some? then prefix
      else if !ok(lines[n - 1]) then Some(n - 1)
      else None
  }

  /** No line is rejected exactly when ok accepts all of them; every line
      before the first rejected one is accepted. */
  lemma {:induction false} FirstRejectedIsFirst(ok: string -> bool, lines: seq<string>, n: nat)
    requires n <= |lines|
    ensures FirstRejected(ok, lines, n).None? <==> forall j :: 0 <= j < n ==> ok(lines[j])
    ensures FirstRejected(ok, lines, n).Some? ==> forall j :: 0 <= j < FirstRejected(ok, lines, n).value ==> ok(lines[j])
  {
    if n > 0 {
      FirstRejectedIsFirst(ok, lines, n - 1);
    }
  }

  /** Once a line is rejected, later lines do not change which is first. */
  lemma {:induction false} FirstRejectedStays(ok: string -> bool, lines: seq<string>, m: nat, n: nat)
    requires m <= n <= |lines| && FirstRejected(ok, lines, m).Some?
    ensures FirstRejected(ok, lines, n) == FirstRejected(ok, lines, m)
  {
    if m < n {
      FirstRejectedStays(ok, lines, m, n - 1);
    }
  }

  /** A rejected line after accepted ones is the first rejected line. */
  lemma RejectedAfterAccepted(ok: string -> bool, lines: seq<string>, i: nat)
    requires i < |lines| && FirstRejected(ok, lines, i).None? && !ok(lines[i])
    ensures FirstRejected(ok, lines, |lines|) == Some(i)
  {
    assert FirstRejected(ok, lines, i + 1) == Some(i);
    FirstRejectedStays(ok, lines, i + 1, |lines|);
  }

  /** The first of the first n lines whose price the number parser rejects. */
  function FirstBadRow(lines: seq<string>, cols: Columns, stod: string -> Result<real>, n: nat): Option<nat>
    requires n <= |lines|
  {
    FirstRejected(AcceptedBy(cols, stod), lines, n)
  }

  /** How many lines the row loop appends: those before the first line whose
      price the number parser rejects, or all of them. */
  function ReadCount(lines: seq<string>, cols: Columns, stod: string -> Result<real>): (n: nat)
    ensures n <= |lines|
  {
    var bad := FirstBadRow(lines, cols, stod, |lines|);
    if bad.Some? then bad.value else |lines|
  }

  /** The price a line contributes once accepted. */
  function PriceValue(line: string, cols: Columns, stod: string -> Result<real>): real
  {
    var p := RecordPrice(Fields(line), cols, stod); if p.Ok? then p.value else 0.0
  }

  /** The prices of the first n lines, in order. */
  function Prices(lines: seq<string>, cols: Columns, stod: string -> Result<real>, n: nat): (r: seq<real>)
    requires n <= |lines|
    ensures |r| == n
  {
    if n == 0 then [] else Prices(lines, cols, stod, n - 1) + [PriceValue(lines[n - 1], cols, stod)]
  }

  /** The date labels of the first n lines, in order. */
  function Dates(lines: seq<string>, cols: Columns, n: nat): (r: seq<string>)
    requires n <= |lines|
    ensures |r| == n
  {
    if n == 0 then [] else Dates(lines, cols, n - 1) + [RecordDate(Fields(lines[n - 1]), cols)]
  }

  /** The row loop: each line appends one price and one date, until a line
      whose price the number parser rejects; that error ends the read, with
      the lines before it appended. */
  method AppendRows(series: TimeSeries, lines: seq<string>, cols: Columns, stod: string -> Result<real>) returns (o: Outcome)
    modifies series
    ensures o.Pass? <==> ReadCount(lines, cols, stod) == |lines|
    ensures o.Fail? ==> o.error == RecordPrice(Fields(lines[ReadCount(lines, cols, stod)]), cols, stod).error
    ensures series.values == old(series.values) + Prices(lines, cols, stod, ReadCount(lines, cols, stod))
    ensures series.dates == old(series.dates) + Dates(lines, cols, ReadCount(lines, cols, stod))
  {
    ghost var values0, dates0 := series.values, series.dates;
    var i := 0;
    while i < |lines|
      invariant 0 <= i <= |lines|
      invariant FirstBadRow(lines, cols, stod, i).None?
      invariant series.values == values0 + Prices(lines, cols, stod, i)
      invariant series.dates == dates0 + Dates(lines, cols, i)
    {
      var step := AppendRecord(series, lines, i, cols, stod, values0, dates0);
      if step.Fail? {
        return step;
      }
      i := i + 1;
    }
    o := Pass;
  }

  /** The body of the row loop for line i: the parser's error with the
      series untouched, or its price and date pushed onto the series,
      extending what the first i lines appended. */
  method AppendRecord(series: TimeSeries, lines: seq<string>, i: nat, cols: Columns, stod: string -> Result<real>,
                      ghost values0: seq<real>, ghost dates0: seq<string>) returns (o: Outcome)
    requires i < |lines| && FirstBadRow(lines, cols, stod, i).None?
    requires series.values == values0 + Prices(lines, cols, stod, i)
    requires series.dates == dates0 + Dates(lines, cols, i)
    modifies series
    ensures o.Fail? <==> !Accepted(lines[i], cols, stod)
    ensures o.Fail? ==> o.error == RecordPrice(Fields(lines[i]), cols, stod).error && ReadCount(lines, cols, stod) == i
                        && series.values == old(series.values) && series.dates == old(series.dates)
    ensures o.Pass? ==> FirstBadRow(lines, cols, stod, i + 1).None?
                        && series.values == values0 + Prices(lines, cols, stod, i + 1)
                        && series.dates == dates0 + Dates(lines, cols, i + 1)
  {
    var row := ParseRecord(lines[i], cols, stod);
    RowStep(lines, cols, stod, i, row);
    if row.Err? {
      return Fail(row.error);
    }
    series.values := series.values + [row.value.price];
    series.dates := series.dates + [row.value.date];
    o := Pass;
  }

  /** What reading line i after accepted lines means for the whole read:
      a rejected line is where it stops; an accepted line extends the
      prices and dates by its own. */
  lemma RowStep(lines: seq<string>, cols: Columns, stod: string -> Result<real>, i: nat, row: Result<Row>)
    requires i < |lines| && FirstBadRow(lines, cols, stod, i).None?
    requires row.Err? <==> RecordPrice(Fields(lines[i]), cols, stod).Err?
    requires row.Err? ==> row.error == RecordPrice(Fields(lines[i]), cols, stod).error
    requires row.Ok? ==> row.value == Row(RecordPrice(Fields(lines[i]), cols, stod).value, RecordDate(Fields(lines[i]), cols))
    ensures row.Err? <==> !Accepted(lines[i], cols, stod)
    ensures row.Err? ==> ReadCount(lines, cols, stod) == i
    ensures row.Ok? ==> FirstBadRow(lines, cols, stod, i + 1).None?
    ensures row.Ok? ==> Prices(lines, cols, stod, i + 1) == Prices(lines, cols, stod, i) + [row.value.price]
    ensures row.Ok? ==> Dates(lines, cols, i + 1) == Dates(lines, cols, i) + [row.value.date]
  {
    if row.Err? {
      RejectedRowEndsRead(lines, cols, stod, i);
    } else {
      AcceptedRowExtends(lines, cols, stod, i);
    }
  }

  /** A rejected line after accepted ones is where the read stops. */
  lemma RejectedRowEndsRead(lines: seq<string>, cols: Columns, stod: string -> Result<real>, i: nat)
    requires i < |lines| && FirstBadRow(lines, cols, stod, i).None? && !Accepted(lines[i], cols, stod)
    ensures ReadCount(lines, cols, stod) == i
  {
    assert !AcceptedBy(cols, stod)(lines[i]);
    RejectedAfterAccepted(AcceptedBy(cols, stod), lines, i);
  }

  /** An accepted line after accepted ones adds its price and date. */
  lemma AcceptedRowExtends(lines: seq<string>, cols: Columns, stod: string -> Result<real>, i: nat)
    requires i < |lines| && FirstBadRow(lines, cols, stod, i).None? && Accepted(lines[i], cols, stod)
    ensures FirstBadRow(lines, cols, stod, i + 1).None?
    ensures Prices(lines, cols, stod, i + 1) == Prices(lines, cols, stod, i) + [RecordPrice(Fields(lines[i]), cols, stod).value]
    ensures Dates(lines, cols, i + 1) == Dates(lines, cols, i) + [RecordDate(Fields(lines[i]), cols)]
  {
  }

  /** Price k of the appended rows is the price column of line k. */
  lemma {:induction false} PriceAt(lines: seq<string>, cols: Columns, stod: string -> Result<real>, n: nat, k: nat)
    requires k < n <= |lines| && Accepted(lines[k], cols, stod)
    ensures Prices(lines, cols, stod, n)[k] == RecordPrice(Fields(lines[k]), cols, stod).value
  {
    if k < n - 1 {
      PriceAt(lines, cols, stod, n - 1, k);
    }
  }

  /** Date k of the appended rows is the date column of line k. */
  lemma {:induction false} DateAt(lines: seq<string>, cols: Columns, n: nat, k: nat)
    requires k < n <= |lines|
    ensures Dates(lines, cols, n)[k] == RecordDate(Fields(lines[k]), cols)
  {
    if k < n - 1 {
      DateAt(lines, cols, n - 1, k);
    }
  }

  /** Every line before the first rejected one is appended: price k of the
      series read is the price column of line k. */
  lemma AppendedPrice(lines: seq<string>, cols: Columns, stod: string -> Result<real>, k: nat)
    requires k < ReadCount(lines, cols, stod)
    ensures Accepted(lines[k], cols, stod)
    ensures Prices(lines, cols, stod, ReadCount(lines, cols, stod))[k] == RecordPrice(Fields(lines[k]), cols, stod).value
  {
    FirstRejectedIsFirst(AcceptedBy(cols, stod), lines, |lines|);
    assert AcceptedBy(cols, stod)(lines[k]);
    PriceAt(lines, cols, stod, ReadCount(lines, cols, stod), k);
  }

  /** Date k of the series read is the date column of line k. */
  lemma AppendedDate(lines: seq<string>, cols: Columns, stod: string -> Result<real>, k: nat)
    requires k < ReadCount(lines, cols, stod)
    ensures Dates(lines, cols, ReadCount(lines, cols, stod))[k] == RecordDate(Fields(lines[k]), cols)
  {
    DateAt(lines, cols, ReadCount(lines, cols, stod), k);
  }
}
