/** The text of a trade file, as utility_scripts/download_trades.py and backend/app/tasks.py
    write it, and the two readers of its last line. Text is ASCII; trade times are positive. */
module TradeText {
  import opened Options
  import opened PagedHistory
  import opened LastLine
  import Decimal

  /** `rest` is the row behind the timestamp: the other columns, commas included. */
  datatype Deal = Deal(id: string, rest: string)
  type Trade = Entry<Deal>

  const COMMA := ','
  const LINE_END := "\r\n"

  predicate Free(s: string, c: char) {
    forall i :: 0 <= i < |s| ==> s[i] != c
  }

  /** A trade that csv.writer writes on one line without quoting its id. */
  predicate Plain(t: Trade) {
    t.ts > 0 && Free(t.payload.id, COMMA) && Free(t.payload.id, NEWLINE) && Free(t.payload.rest, NEWLINE)
  }

  predicate AllPlain(trades: seq<Trade>) {
    forall i :: 0 <= i < |trades| ==> Plain(trades[i])
  }

  function Line(first: string, second: string, rest: string): string {
    first + [COMMA] + second + [COMMA] + rest + LINE_END
  }

  function Header(): string {
    Line("id", "timestamp", "datetime,symbol,side,price,amount,cost")
  }

  function Row(t: Trade): string
    requires Plain(t)
  {
    Line(t.payload.id, Decimal.Write(t.ts), t.payload.rest)
  }

  function Text(trades: seq<Trade>): string
    requires AllPlain(trades)
  {
    if trades == [] then [] else Text(trades[..|trades| - 1]) + Row(trades[|trades| - 1])
  }

  function FileText(trades: seq<Trade>): string
    requires AllPlain(trades)
  {
    Header() + Text(trades)
  }

  /** str.strip(). */
  predicate IsSpace(c: char) {
    var n := c as int;
    9 <= n <= 13 || 28 <= n <= 32
  }

  function StripLeft(s: string): string {
    if s != [] && IsSpace(s[0]) then StripLeft(s[1..]) else s
  }

  function StripRight(s: string): string {
    if s != [] && IsSpace(s[|s| - 1]) then StripRight(s[..|s| - 1]) else s
  }

  function Strip(s: string): string {
    StripRight(StripLeft(s))
  }

  /** Everything before the first comma, and whether and what follows it. */
  function FirstField(s: string): (f: string)
    ensures |f| <= |s| && Free(f, COMMA) && (|f| < |s| ==> s[|f|] == COMMA) && s[..|f|] == f
  {
    if s == [] || s[0] == COMMA then [] else [s[0]] + FirstField(s[1..])
  }

  function Split(s: string): (fields: seq<string>)
    ensures |fields| >= 1
    decreases |s|
  {
    var f := FirstField(s);
    if |f| == |s| then [f] else [f] + Split(s[|f| + 1..])
  }

  /** The columns of the last line, white space around the line aside. */
  function LastColumns(bytes: string): (columns: seq<string>)
    ensures |columns| >= 1
  {
    Split(Strip(Last(Lines(bytes))))
  }

  /** get_last_timestamp of the trade script: column 1 of the last line when it is a numeral. */
  function LastTimestamp(bytes: string): Option<nat> {
    var data := LastColumns(bytes);
    if |data| > 1 && Decimal.Digits(data[1]) then Some(Decimal.Read(data[1])) else None
  }

  method GetLastTimestamp(bytes: string) returns (t: Option<nat>)
    ensures t == LastTimestamp(bytes)
  {
    var f := new File(bytes);
    var line := f.ReadLastLine();
    var stripped := Strip(line);
    if stripped == [] {
      assert Split(stripped) == [[]];
      return None;
    }
    var data := Split(stripped);
    if |data| > 1 && Decimal.Digits(data[1]) {
      return Some(Decimal.Read(data[1]));
    }
    return None;
  }

  // ---------------------------------------------------------------- reading back

  lemma {:induction false} FirstFieldIs(f: string, tail: string)
    requires Free(f, COMMA)
    ensures FirstField(f + [COMMA] + tail) == f
  {
    var s := f + [COMMA] + tail;
    if f != [] {
      assert s[1..] == f[1..] + [COMMA] + tail;
      FirstFieldIs(f[1..], tail);
    }
  }

  lemma {:induction false} SplitFirst(f: string, tail: string)
    requires Free(f, COMMA)
    ensures Split(f + [COMMA] + tail) == [f] + Split(tail)
  {
    FirstFieldIs(f, tail);
    assert (f + [COMMA] + tail)[|f| + 1..] == tail;
  }

  lemma {:induction false} StripLeftKeeps(a: string, tail: string)
    requires tail != [] && !IsSpace(tail[0])
    ensures StripLeft(a + tail) == StripLeft(a) + tail
  {
    if a == [] {
      assert a + tail == tail;
    } else {
      assert (a + tail)[1..] == a[1..] + tail;
      StripLeftKeeps(a[1..], tail);
    }
  }

  lemma {:induction false} StripRightKeeps(head: string, b: string)
    requires head != [] && !IsSpace(head[|head| - 1])
    ensures StripRight(head + b) == head + StripRight(b)
  {
    if b == [] {
      assert head + b == head;
    } else {
      assert (head + b)[..|head + b| - 1] == head + b[..|b| - 1];
      StripRightKeeps(head, b[..|b| - 1]);
    }
  }

  lemma {:induction false} StripLeftFree(s: string, c: char)
    requires Free(s, c)
    ensures Free(StripLeft(s), c)
  {
    if s != [] && IsSpace(s[0]) {
      StripLeftFree(s[1..], c);
    }
  }

  lemma {:induction false} DigitsFree(n: nat)
    ensures Free(Decimal.Write(n), COMMA) && Free(Decimal.Write(n), NEWLINE)
  {
    var s := Decimal.Write(n);
    assert forall i :: 0 <= i < |s| ==> Decimal.IsDigit(s[i]);
  }

  /** The first two columns of a line survive stripping and splitting. */
  lemma {:induction false} FirstColumns(first: string, second: string, rest: string)
    requires Free(first, COMMA) && Free(second, COMMA)
    ensures var data := Split(Strip(first + [COMMA] + second + [COMMA] + rest));
            |data| > 1 && data[0] == StripLeft(first) && data[1] == second
  {
    var tail := [COMMA] + second + [COMMA] + rest;
    assert first + [COMMA] + second + [COMMA] + rest == first + tail;
    StripLeftKeeps(first, tail);
    var first' := StripLeft(first);
    StripLeftFree(first, COMMA);
    var head := first' + [COMMA] + second + [COMMA];
    assert first' + tail == head + rest;
    StripRightKeeps(head, rest);
    var rest' := StripRight(rest);
    assert head + rest' == first' + [COMMA] + (second + [COMMA] + rest');
    SplitFirst(first', second + [COMMA] + rest');
    SplitFirst(second, rest');
  }

  lemma {:induction false} LastOfAppended(before: string, line: string)
    requires before == [] || before[|before| - 1] == NEWLINE
    requires line != [] && Free(line[..|line| - 1], NEWLINE)
    ensures Last(Lines(before + line)) == line
  {
    var s := before + line;
    forall i | |before| <= i < |s| - 1
      ensures s[i] != NEWLINE
    {
      assert s[i] == line[..|line| - 1][i - |before|];
    }
    LastFrom(s, |before|);
  }

  lemma {:induction false} LineShape(first: string, second: string, rest: string)
    requires Free(first, NEWLINE) && Free(second, NEWLINE) && Free(rest, NEWLINE)
    ensures var r := Line(first, second, rest);
            r != [] && r[|r| - 1] == NEWLINE && Free(r[..|r| - 1], NEWLINE)
  {
    var r := Line(first, second, rest);
    var body := first + [COMMA] + second + [COMMA] + rest;
    assert Free(body, NEWLINE);
    assert r[..|r| - 1] == body + "\r";
  }

  /** Behind any whole lines, the first two columns of an appended line are read back. */
  lemma {:induction false} LineReadBack(before: string, first: string, second: string, rest: string)
    requires before == [] || before[|before| - 1] == NEWLINE
    requires Free(first, NEWLINE) && Free(second, NEWLINE) && Free(rest, NEWLINE)
    requires Free(first, COMMA) && Free(second, COMMA)
    ensures var data := LastColumns(before + Line(first, second, rest));
            |data| > 1 && data[0] == StripLeft(first) && data[1] == second
  {
    hide Split, Strip, Lines;
    LineShape(first, second, rest);
    LastOfAppended(before, Line(first, second, rest));
    FirstColumns(first, second, rest + LINE_END);
    assert Line(first, second, rest) == first + [COMMA] + second + [COMMA] + (rest + LINE_END);
  }

  /** MAIN: behind any whole lines, the timestamp of an appended row is read back exactly. */
  lemma {:induction false} RowReadBack(before: string, t: Trade)
    requires before == [] || before[|before| - 1] == NEWLINE
    requires Plain(t)
    ensures LastTimestamp(before + Row(t)) == Some(t.ts)
    ensures |LastColumns(before + Row(t))| > 1 && LastColumns(before + Row(t))[0] == StripLeft(t.payload.id)
  {
    hide LastColumns, Line;
    DigitsFree(t.ts);
    LineReadBack(before, t.payload.id, Decimal.Write(t.ts), t.payload.rest);
    Decimal.RoundTrip(t.ts);
  }

  lemma {:induction false} HeaderReadBack()
    ensures Header() != [] && Header()[|Header()| - 1] == NEWLINE
    ensures LastTimestamp(Header()) == None && |LastColumns(Header())| > 1 && LastColumns(Header())[0] == "id"
  {
    hide LastColumns, Line;
    var rest := "datetime,symbol,side,price,amount,cost";
    assert Free("id", NEWLINE) && Free("timestamp", NEWLINE) && Free(rest, NEWLINE);
    assert Free("id", COMMA) && Free("timestamp", COMMA);
    LineShape("id", "timestamp", rest);
    LineReadBack([], "id", "timestamp", rest);
    assert [] + Header() == Header();
    assert StripLeft("id") == "id" && !Decimal.IsDigit("timestamp"[0]);
  }

  lemma {:induction false} EmptyReadBack()
    ensures LastTimestamp([]) == None
  {
    assert Split(Strip(Last(Lines([])))) == [[]];
  }

  /** The text of a non-empty file: whole lines, then the last row. */
  lemma {:induction false} FileEnds(trades: seq<Trade>)
    requires AllPlain(trades)
    ensures FileText(trades) != [] && FileText(trades)[|FileText(trades)| - 1] == NEWLINE
    ensures trades == [] ==> FileText(trades) == Header()
    ensures trades != [] ==> FileText(trades) == FileText(trades[..|trades| - 1]) + Row(trades[|trades| - 1])
  {
    hide Line, Header;
    HeaderReadBack();
    if trades == [] {
      assert Header() + [] == Header();
    } else {
      var t := trades[|trades| - 1];
      DigitsFree(t.ts);
      LineShape(t.payload.id, Decimal.Write(t.ts), t.payload.rest);
      var before := Text(trades[..|trades| - 1]);
      assert Text(trades) == before + Row(t);
      hide Row, Text;
      assert Header() + (before + Row(t)) == Header() + before + Row(t);
    }
  }

  /** MAIN: the trade file's reader returns the last trade's time, and nothing for a header. */
  lemma {:induction false} FileReadBack(trades: seq<Trade>)
    requires AllPlain(trades)
    ensures LastTimestamp(FileText(trades)) == if trades == [] then None else Some(trades[|trades| - 1].ts)
    ensures |LastColumns(FileText(trades))| > 1
    ensures LastColumns(FileText(trades))[0]
         == if trades == [] then "id" else StripLeft(trades[|trades| - 1].payload.id)
  {
    hide LastColumns, LastTimestamp, Header, Row, FileText;
    FileEnds(trades);
    if trades == [] {
      HeaderReadBack();
    } else {
      FileEnds(trades[..|trades| - 1]);
      RowReadBack(FileText(trades[..|trades| - 1]), trades[|trades| - 1]);
    }
  }

  // ---------------------------------------------------------------- stripping

  predicate AllSpace(s: string) {
    forall i :: 0 <= i < |s| ==> s[i] as int in {9, 10, 11, 12, 13, 28, 29, 30, 31, 32}
  }

  /** No white space at either end. */
  predicate Bare(s: string) {
    s != [] ==> !AllSpace(s[..1]) && !AllSpace(s[|s| - 1..])
  }

  lemma {:induction false} StripLeftSplits(s: string) returns (left: string)
    ensures s == left + StripLeft(s) && AllSpace(left)
    ensures StripLeft(s) != [] ==> !AllSpace(StripLeft(s)[..1])
  {
    if s != [] && IsSpace(s[0]) {
      var rest := StripLeftSplits(s[1..]);
      left := [s[0]] + rest;
    } else {
      left := [];
    }
  }

  lemma {:induction false} StripRightSplits(s: string) returns (right: string)
    ensures s == StripRight(s) + right && AllSpace(right)
    ensures StripRight(s) != [] ==> !AllSpace(StripRight(s)[|StripRight(s)| - 1..])
  {
    if s != [] && IsSpace(s[|s| - 1]) {
      var init := s[..|s| - 1];
      var rest := StripRightSplits(init);
      right := rest + [s[|s| - 1]];
      assert StripRight(s) == StripRight(init);
      hide StripRight;
      assert s == init + [s[|s| - 1]];
    } else {
      right := [];
      if s != [] {
        assert s[|s| - 1..] == [s[|s| - 1]];
      }
    }
  }

  predicate Strips(s: string, left: string, kept: string, right: string) {
    s == left + kept + right && AllSpace(left) && AllSpace(right) && Bare(kept)
  }

  /** Stripping takes exactly the white space off both ends of a text. */
  lemma {:induction false} StripIs(s: string)
    ensures exists left, right :: Strips(s, left, Strip(s), right)
  {
    var left := StripLeftSplits(s);
    var right := StripRightSplits(StripLeft(s));
    var kept := Strip(s);
    hide StripLeft, StripRight, AllSpace;
    assert s == left + kept + right;
    assert kept != [] ==> kept[..1] == StripLeft(s)[..1];
    assert Strips(s, left, kept, right);
  }

  // ---------------------------------------------------------------- reading a whole file back

  /** A line cut at its first two commas: two columns and the rest of the row. */
  datatype Record = Record(first: string, second: string, rest: string)

  /** The rest of a line behind its first `n` characters and one comma. */
  function After(line: string, n: nat): string {
    if n < |line| then line[n + 1..] else []
  }

  function WithoutEnd(s: string): string {
    if |s| >= 2 && s[|s| - 2..] == LINE_END then s[..|s| - 2] else s
  }

  function Cut(line: string): Record {
    var first := FirstField(line);
    var tail := After(line, |first|);
    var second := FirstField(tail);
    Record(first, second, WithoutEnd(After(tail, |second|)))
  }

  function Records(text: string): seq<Record>
    decreases |text|
  {
    if text == [] then [] else [Cut(text[..LineLength(text)])] + Records(text[LineLength(text)..])
  }

  /** The trades of a file: every line behind the first, with its columns id, timestamp and the
      rest of the row. */
  function ReadTrades(text: string): seq<Trade> {
    if Records(text) == [] then [] else AsTrades(Records(text)[1..])
  }

  function AsTrades(records: seq<Record>): seq<Trade> {
    if records == [] then []
    else
      var r := records[0];
      [Entry(if Decimal.Digits(r.second) then Decimal.Read(r.second) else 0, Deal(r.first, r.rest))]
      + AsTrades(records[1..])
  }

  lemma {:induction false} CutLine(first: string, second: string, rest: string)
    requires Free(first, COMMA) && Free(second, COMMA)
    ensures Cut(Line(first, second, rest)) == Record(first, second, rest)
  {
    var tail := second + [COMMA] + (rest + LINE_END);
    assert Line(first, second, rest) == first + [COMMA] + tail;
    FirstFieldIs(first, tail);
    assert (first + [COMMA] + tail)[|first| + 1..] == tail;
    FirstFieldIs(second, rest + LINE_END);
    assert tail[|second| + 1..] == rest + LINE_END;
    var end := rest + LINE_END;
    assert end[|end| - 2..] == LINE_END && end[..|end| - 2] == rest;
  }

  /** The first line of a text, cut off. */
  lemma {:induction false} FirstRecord(first: string, second: string, rest: string, tail: string)
    requires Free(first, COMMA) && Free(second, COMMA)
    requires Free(first, NEWLINE) && Free(second, NEWLINE) && Free(rest, NEWLINE)
    ensures Records(Line(first, second, rest) + tail) == [Record(first, second, rest)] + Records(tail)
  {
    hide Cut;
    var line := Line(first, second, rest);
    LineShape(first, second, rest);
    CutLine(first, second, rest);
    LengthOfLine(line, tail);
    assert (line + tail)[..|line|] == line && (line + tail)[|line|..] == tail;
  }

  lemma {:induction false} LengthOfLine(line: string, tail: string)
    requires line != [] && line[|line| - 1] == NEWLINE && Free(line[..|line| - 1], NEWLINE)
    ensures LineLength(line + tail) == |line|
  {
    assert (line + tail)[0] == line[0];
    if |line| > 1 {
      assert line[..|line| - 1][0] == line[0];
      assert line[1..][..|line| - 2] == line[..|line| - 1][1..];
      assert (line + tail)[1..] == line[1..] + tail;
      LengthOfLine(line[1..], tail);
    }
  }

  lemma {:induction false} TextFirst(trades: seq<Trade>)
    requires AllPlain(trades) && trades != []
    ensures Text(trades) == Row(trades[0]) + Text(trades[1..])
  {
    hide Row;
    var n := |trades| - 1;
    if n > 0 {
      TextFirst(trades[..n]);
      assert trades[1..][..n - 1] == trades[..n][1..];
    } else {
      assert trades[..0] == [] && trades[1..] == [];
    }
  }

  lemma {:induction false} TextReadBack(trades: seq<Trade>)
    requires AllPlain(trades)
    ensures AsTrades(Records(Text(trades))) == trades
  {
    if trades != [] {
      var t := trades[0];
      DigitsFree(t.ts);
      TextFirst(trades);
      FirstRecord(t.payload.id, Decimal.Write(t.ts), t.payload.rest, Text(trades[1..]));
      Decimal.RoundTrip(t.ts);
      TextReadBack(trades[1..]);
      hide Records, Row, Text;
      var record, rest := Record(t.payload.id, Decimal.Write(t.ts), t.payload.rest), Records(Text(trades[1..]));
      assert ([record] + rest)[1..] == rest;
      assert [t] + trades[1..] == trades;
    } else {
      assert Records([]) == [];
    }
  }

  /** MAIN: cut at its line ends and each line at its first two commas, the text of a trade file
      gives back every trade with its id, its time and the rest of its row, in order. */
  lemma {:induction false} TradesReadBack(trades: seq<Trade>)
    requires AllPlain(trades)
    ensures ReadTrades(FileText(trades)) == trades
    ensures Records(FileText(trades))[..1]
         == [Record("id", "timestamp", "datetime,symbol,side,price,amount,cost")]
  {
    var rest := "datetime,symbol,side,price,amount,cost";
    assert Free("id", NEWLINE) && Free("timestamp", NEWLINE) && Free(rest, NEWLINE);
    assert Free("id", COMMA) && Free("timestamp", COMMA);
    FirstRecord("id", "timestamp", rest, Text(trades));
    TextReadBack(trades);
  }

  // ---------------------------------------------------------------- torn rows

  lemma {:induction false} StripRightFree(s: string, c: char)
    requires Free(s, c)
    ensures Free(StripRight(s), c)
  {
    if s != [] && IsSpace(s[|s| - 1]) {
      StripRightFree(s[..|s| - 1], c);
    }
  }

  lemma {:induction false} OneColumn(s: string)
    requires Free(s, COMMA)
    ensures |Split(Strip(s))| == 1
  {
    StripLeftFree(s, COMMA);
    StripRightFree(StripLeft(s), COMMA);
  }

  lemma {:induction false} TwoColumns(first: string, second: string)
    requires Free(first, COMMA) && Free(second, COMMA)
    requires second == [] || !IsSpace(second[|second| - 1])
    ensures Split(Strip(first + [COMMA] + second)) == [StripLeft(first), second]
  {
    var tail := [COMMA] + second;
    assert first + [COMMA] + second == first + tail;
    StripLeftKeeps(first, tail);
    StripLeftFree(first, COMMA);
    var kept := StripLeft(first) + tail;
    assert kept[|kept| - 1] == tail[|tail| - 1];
    assert StripRight(kept) == kept == StripLeft(first) + [COMMA] + second;
    SplitFirst(StripLeft(first), second);
    var f := FirstField(second);
    assert |f| == |second| && second[..|second|] == second;
  }

  /** How a row cut off after `p` characters begins. */
  lemma {:induction false} RowPrefix(t: Trade, p: nat)
    requires Plain(t) && p < |Row(t)|
    ensures var id, digits := t.payload.id, Decimal.Write(t.ts);
            var q := p - |id| - 1;
            if q < 0 then Row(t)[..p] == id[..p]
            else if q <= |digits| then Row(t)[..p] == id + [COMMA] + digits[..q]
            else exists rest :: Row(t)[..p] == id + [COMMA] + digits + [COMMA] + rest
    ensures Free(Row(t)[..p], NEWLINE)
  {
    var id, digits := t.payload.id, Decimal.Write(t.ts);
    DigitsFree(t.ts);
    LineShape(id, digits, t.payload.rest);
    var r, q := Row(t), p - |id| - 1;
    assert r[..p] == r[..|r| - 1][..p];
    if q > |digits| {
      var rest := (t.payload.rest + LINE_END)[..q - |digits| - 1];
      assert r[..p] == id + [COMMA] + digits + [COMMA] + rest;
    }
  }

  lemma {:induction false} DigitsPrefix(n: nat, q: nat)
    requires q <= |Decimal.Write(n)|
    ensures var d := Decimal.Write(n)[..q];
            Free(d, COMMA) && (d == [] || !IsSpace(d[|d| - 1])) && (Decimal.Digits(d) <==> q > 0)
  {
    var s := Decimal.Write(n);
    assert forall i :: 0 <= i < |s| ==> Decimal.IsDigit(s[i]);
  }

  /** MAIN: a row torn by a crash is read back right exactly when its digits are complete. Torn
      inside the digits it passes for a smaller time; torn before them, for no time at all. */
  lemma {:induction false} TornRow(before: string, t: Trade, p: nat)
    requires before == [] || before[|before| - 1] == NEWLINE
    requires Plain(t) && 0 < p < |Row(t)|
    ensures var start := |t.payload.id| + 1;
            var end := start + |Decimal.Write(t.ts)|;
            var read := LastTimestamp(before + Row(t)[..p]);
            && (read == Some(t.ts) <==> p >= end)
            && (start < p < end ==> read.Some? && 0 < read.value < t.ts)
            && (p <= start ==> read == None)
  {
    hide Row, Split, Strip, Lines, Last;
    var id, digits := t.payload.id, Decimal.Write(t.ts);
    var line, q := Row(t)[..p], p - |id| - 1;
    RowPrefix(t, p);
    LastOfAppended(before, line);
    if q < 0 {
      OneColumn(line);
    } else if q <= |digits| {
      DigitsPrefix(t.ts, q);
      TwoColumns(id, digits[..q]);
      Decimal.RoundTrip(t.ts);
      if 0 < q < |digits| {
        Decimal.PrefixIsSmaller(t.ts, q);
      } else {
        assert digits[..|digits|] == digits;
      }
    } else {
      var rest :| line == id + [COMMA] + digits + [COMMA] + rest;
      DigitsFree(t.ts);
      FirstColumns(id, digits, rest);
      Decimal.RoundTrip(t.ts);
    }
  }

  // ---------------------------------------------------------------- the other reader

  /** get_last_timestamp of tasks.py: column 0 of the last line, read as a date. */
  function LastDate(bytes: string, parseDate: string -> Option<int>): Option<int> {
    if bytes == [] || Strip(Last(Lines(bytes))) == [] then None else parseDate(LastColumns(bytes)[0])
  }

  /** A blank last line has no date. */
  lemma {:induction false} BlankHasNoDate(bytes: string, parseDate: string -> Option<int>)
    requires AllSpace(Last(Lines(bytes)))
    ensures LastDate(bytes, parseDate) == None && LastTimestamp(bytes) == None
  {
    hide Strip, Lines, Last;
    if Strip(Last(Lines(bytes))) != [] {
      NotBlank(Last(Lines(bytes)));
    }
    assert Split([]) == [[]];
  }

  lemma {:induction false} NotBlank(line: string)
    requires Strip(line) != []
    ensures !AllSpace(line)
  {
    StripIs(line);
    var left, right :| Strips(line, left, Strip(line), right);
    assert line[|left|] == Strip(line)[0] && Strip(line)[..1] == [Strip(line)[0]];
  }

  lemma {:induction false} BlankLine(bytes: string)
    ensures |LastColumns(bytes)| > 1 ==> Strip(Last(Lines(bytes))) != []
  {
    assert Split([]) == [[]];
  }

  /** MAIN: on a trade file it takes the last trade's id for a date, and the word `id` when
      there is only the header. */
  lemma {:induction false} DateIsId(trades: seq<Trade>, parseDate: string -> Option<int>)
    requires AllPlain(trades)
    ensures LastDate(FileText(trades), parseDate)
         == parseDate(if trades == [] then "id" else StripLeft(trades[|trades| - 1].payload.id))
  {
    hide FileText;
    FileReadBack(trades);
    FileEnds(trades);
    BlankLine(FileText(trades));
  }
}
