/**
 * Server-sent event framing: events are blocks of lines with an empty line after each, cut out of
 * a text that arrives in arbitrary pieces.
 */
module SseFraming {
  import opened Text
  import opened Wrappers

  // ----- Blocks -----

  /** The position of the first "\n\n", or the length of the text when there is none. */
  function FirstBreak(s: string): (i: nat)
    ensures i <= |s|
    ensures i < |s| ==> i + 1 < |s| && s[i] == '\n' && s[i + 1] == '\n'
    ensures forall k :: 0 <= k < i && k + 1 < |s| ==> !(s[k] == '\n' && s[k + 1] == '\n')
  {
    if |s| < 2 then |s|
    else if s[0] == '\n' && s[1] == '\n' then 0
    else
      var i := FirstBreak(s[1..]);
      assert forall k :: 0 < k < |s| ==> s[k] == s[1..][k - 1];
      i + 1
  }

  /** The text split at every "\n\n", left to right; the last piece is unfinished. */
  function Blocks(s: string): (r: seq<string>)
    ensures |r| >= 1
    decreases |s|
  {
    var i := FirstBreak(s);
    if i == |s| then [s] else [s[..i]] + Blocks(s[i + 2..])
  }

  function Front<T>(s: seq<T>): seq<T>
    requires |s| > 0
  {
    s[..|s| - 1]
  }

  function Last<T>(s: seq<T>): T
    requires |s| > 0
  {
    s[|s| - 1]
  }

  /** The first break of a text is still the first when more text follows. */
  lemma BreakStays(x: string, y: string)
    requires FirstBreak(x) < |x|
    ensures FirstBreak(x + y) == FirstBreak(x)
  {
    var i, j := FirstBreak(x), FirstBreak(x + y);
    var s := x + y;
    assert forall k :: 0 <= k < |x| ==> s[k] == x[k];
    assert s[i] == '\n' && s[i + 1] == '\n';
    assert j <= i && j >= i;
  }

  /**
   * Chunking does not matter: the pieces of a longer text are the finished pieces of its start,
   * then the pieces of what was left over with the rest behind it.
   */
  lemma {:induction false} BlocksAppend(x: string, y: string)
    ensures Blocks(x + y) == Front(Blocks(x)) + Blocks(Last(Blocks(x)) + y)
    decreases |x|
  {
    hide FirstBreak;
    var i := FirstBreak(x);
    if i == |x| {
      assert Front([x]) == [] && [] + Blocks(x + y) == Blocks(x + y);
    } else {
      BreakStays(x, y);
      var rest := x[i + 2..];
      assert (x + y)[..i] == x[..i] && (x + y)[i + 2..] == rest + y;
      BlocksAppend(rest, y);
      var finished, left := Front(Blocks(rest)), Blocks(Last(Blocks(rest)) + y);
      assert Blocks(x) == [x[..i]] + Blocks(rest);
      assert Front(Blocks(x)) == [x[..i]] + finished && Last(Blocks(x)) == Last(Blocks(rest));
      assert [x[..i]] + (finished + left) == ([x[..i]] + finished) + left;
    }
  }

  // ----- One block -----

  datatype Event<P> = Event(id: Option<int>, event: string, payload: P)

  function DigitPrefix(s: string): (r: string)
    ensures forall i :: 0 <= i < |r| ==> IsDigit(r[i])
  {
    if s == "" || !IsDigit(s[0]) then "" else [s[0]] + DigitPrefix(s[1..])
  }

  /** `Number.parseInt(s, 10)`: an optional sign and as many digits as follow; none is not a number. */
  function ParseInt(s: string): Option<int> {
    var t := TrimStart(s);
    var negative := t != "" && t[0] == '-';
    var digits := DigitPrefix(if t != "" && (t[0] == '-' || t[0] == '+') then t[1..] else t);
    if digits == "" then None
    else Some(if negative then -(ToNat(digits) as int) else ToNat(digits) as int)
  }

  predicate StartsWith(s: string, prefix: string) { prefix <= s }

  datatype Fields = Fields(id: Option<int>, event: Option<string>, data: Option<string>)

  /** What one line adds: an id only when it is past the last one seen. */
  function TakeLine(fields: Fields, line: string, prevSeq: int): Fields {
    if StartsWith(line, "id: ") then
      match ParseInt(Trim(line[4..]))
      case Some(n) => if n > prevSeq then fields.(id := Some(n)) else fields
      case None => fields
    else if StartsWith(line, "event: ") then fields.(event := Some(Trim(line[7..])))
    else if StartsWith(line, "data: ") then fields.(data := Some(line[6..]))
    else fields
  }

  function TakeLines(lines: seq<string>, prevSeq: int): Fields {
    if lines == [] then Fields(None, None, None)
    else TakeLine(TakeLines(Front(lines), prevSeq), Last(lines), prevSeq)
  }

  /** An event needs a name and data that parse. */
  function Assemble<P>(fields: Fields, json: string -> Option<P>): Option<Event<P>> {
    if fields.event.None? || fields.event.value == "" || fields.data.None? then None
    else
      match json(fields.data.value)
      case None => None
      case Some(p) => Some(Event(fields.id, fields.event.value, p))
  }

  function Parse<P>(raw: string, prevSeq: int, json: string -> Option<P>): Option<Event<P>> {
    Assemble(TakeLines(Split(raw, '\n'), prevSeq), json)
  }

  /** The line loop of `parseSseEvent`. */
  method ParseSseEvent<P>(raw: string, prevSeq: int, json: string -> Option<P>) returns (r: Option<Event<P>>)
    ensures r == Parse(raw, prevSeq, json)
    ensures r.Some? && r.value.id.Some? ==> r.value.id.value > prevSeq
  {
    hide Split, ParseInt, Trim;
    var lines := Split(raw, '\n');
    var id: Option<int>, event: Option<string>, data: Option<string> := None, None, None;
    var k := 0;
    while k < |lines|
      invariant 0 <= k <= |lines|
      invariant Fields(id, event, data) == TakeLines(lines[..k], prevSeq)
      invariant id.Some? ==> id.value > prevSeq
    {
      var line := lines[k];
      assert Front(lines[..k + 1]) == lines[..k] && Last(lines[..k + 1]) == line;
      if StartsWith(line, "id: ") {
        var parsed := ParseInt(Trim(line[4..]));
        if parsed.Some? && parsed.value > prevSeq {
          id := parsed;
        }
      } else if StartsWith(line, "event: ") {
        event := Some(Trim(line[7..]));
      } else if StartsWith(line, "data: ") {
        data := Some(line[6..]);
      }
      k := k + 1;
    }
    assert lines[..k] == lines;
    if event.None? || event.value == "" || data.None? {
      return None;
    }
    var payload := json(data.value);
    if payload.None? {
      return None;
    }
    return Some(Event(id, event.value, payload.value));
  }

  predicate Begins(line: string, prefix: string) {
    |line| >= |prefix| && forall i :: 0 <= i < |prefix| ==> line[i] == prefix[i]
  }

  /** The last of the lines that begin so. */
  ghost predicate LastWith(lines: seq<string>, prefix: string, k: int) {
    0 <= k < |lines| && Begins(lines[k], prefix) && forall j :: k < j < |lines| ==> !Begins(lines[j], prefix)
  }

  /** A line that gives a number past the last one seen. */
  predicate GivesId(line: string, prevSeq: int) {
    Begins(line, "id: ") && ParseInt(Trim(line[4..])).Some? && ParseInt(Trim(line[4..])).value > prevSeq
  }

  lemma WhichField(line: string)
    ensures StartsWith(line, "id: ") <==> Begins(line, "id: ")
    ensures StartsWith(line, "event: ") <==> Begins(line, "event: ")
    ensures StartsWith(line, "data: ") <==> Begins(line, "data: ")
    ensures Begins(line, "id: ") ==> line[0] == 'i'
    ensures Begins(line, "event: ") ==> line[0] == 'e'
    ensures Begins(line, "data: ") ==> line[0] == 'd'
  {
  }

  /**
   * What a block's lines say: the event and the data are what follows the last line that begins with
   * their word, a colon and a space; the number is that of the last line that gives one past the
   * last one seen; no other line counts.
   */
  lemma {:induction false} FieldsMean(lines: seq<string>, prevSeq: int)
    ensures var f := TakeLines(lines, prevSeq);
            && (f.event == None <==> forall k :: 0 <= k < |lines| ==> !Begins(lines[k], "event: "))
            && (forall k :: LastWith(lines, "event: ", k) ==> f.event == Some(Trim(lines[k][7..])))
            && (f.data == None <==> forall k :: 0 <= k < |lines| ==> !Begins(lines[k], "data: "))
            && (forall k :: LastWith(lines, "data: ", k) ==> f.data == Some(lines[k][6..]))
            && (f.id == None <==> forall k :: 0 <= k < |lines| ==> !GivesId(lines[k], prevSeq))
            && (forall k :: 0 <= k < |lines| && GivesId(lines[k], prevSeq)
                            && (forall j :: k < j < |lines| ==> !GivesId(lines[j], prevSeq)) ==>
                  f.id == ParseInt(Trim(lines[k][4..])))
    decreases |lines|
  {
    hide Trim, ParseInt, Begins, StartsWith;
    if lines != [] {
      FieldsMean(Front(lines), prevSeq);
      WhichField(Last(lines));
      assert lines == Front(lines) + [Last(lines)];
    }
  }

  lemma {:induction false} DigitPrefixIs(digits: string, rest: string)
    requires forall i :: 0 <= i < |digits| ==> IsDigit(digits[i])
    requires rest != "" ==> !IsDigit(rest[0])
    ensures DigitPrefix(digits + rest) == digits
    decreases |digits|
  {
    if digits != "" {
      assert (digits + rest)[1..] == digits[1..] + rest;
      DigitPrefixIs(digits[1..], rest);
    } else {
      assert digits + rest == rest;
    }
  }

  /** A number is read with its sign, up to the first character that is no digit; without a digit there is none. */
  lemma NumbersAreRead(sign: string, digits: string, rest: string)
    requires sign in {"", "+", "-"} && forall i :: 0 <= i < |digits| ==> IsDigit(digits[i])
    requires rest != "" ==> !IsDigit(rest[0])
    requires sign == "" && digits == "" ==> rest == "" || (rest[0] !in {'+', '-'} && !IsSpace(rest[0]))
    ensures ParseInt(sign + digits + rest)
            == if digits == "" then None else Some(if sign == "-" then -(ToNat(digits) as int) else ToNat(digits))
  {
    hide ParseInt, DigitPrefix, ToNat, IsSpace, IsDigit;
    DigitPrefixIs(digits, rest);
    if sign == "" {
      assert "" + digits + rest == digits + rest;
      if digits != "" {
        NotBlank(digits[0]);
      } else {
        assert digits + rest == rest;
      }
      Unsigned(digits + rest);
    } else {
      assert sign == [sign[0]];
      assert sign + digits + rest == [sign[0]] + (digits + rest);
      Signed(sign[0], digits + rest);
    }
  }

  lemma Unsigned(t: string)
    requires t != "" ==> !IsSpace(t[0]) && t[0] != '+' && t[0] != '-'
    ensures ParseInt(t) == if DigitPrefix(t) == "" then None else Some(ToNat(DigitPrefix(t)) as int)
  {
    hide DigitPrefix, ToNat, IsSpace;
  }

  lemma Signed(c: char, t: string)
    requires c == '+' || c == '-'
    ensures var digits := DigitPrefix(t);
            ParseInt([c] + t) == if digits == "" then None
                                 else Some(if c == '-' then -(ToNat(digits) as int) else ToNat(digits) as int)
  {
    NotBlank(c);
    hide DigitPrefix, ToNat, IsSpace;
    assert ([c] + t)[1..] == t;
  }

  lemma NotBlank(c: char)
    requires IsDigit(c) || c == '+' || c == '-'
    ensures !IsSpace(c) && (IsDigit(c) ==> c != '+' && c != '-')
  {
  }

  // ----- Frames as the server writes them -----

  datatype Frame = Frame(id: Option<nat>, name: string, data: string)

  /** A name with nothing to trim and no line break, and one line of data that parses. */
  ghost predicate WellFormed<P>(f: Frame, json: string -> Option<P>) {
    f.name != "" && Trim(f.name) == f.name && '\n' !in f.name && '\n' !in f.data && json(f.data).Some?
  }

  function FrameLines(f: Frame): seq<string> {
    (match f.id case Some(n) => ["id: " + FromNat(n)] case None => [])
    + ["event: " + f.name, "data: " + f.data]
  }

  /** The block of a frame, without the empty line that ends it. */
  function BlockText(f: Frame): string {
    Join(FrameLines(f), "\n")
  }

  /** `encodeSseFrame`. */
  function Encode(f: Frame): string {
    (match f.id case Some(n) => "id: " + FromNat(n) + "\n" case None => "")
    + "event: " + f.name + "\ndata: " + f.data + "\n\n"
  }

  lemma EncodeIsBlock(f: Frame)
    ensures Encode(f) == BlockText(f) + "\n\n"
  {
    hide FromNat;
    var body := ["event: " + f.name, "data: " + f.data];
    assert Join(body[1..], "\n") == "data: " + f.data;
    if f.id.Some? {
      var first := "id: " + FromNat(f.id.value);
      assert FrameLines(f)[1..] == body;
      assert Join(FrameLines(f), "\n") == first + "\n" + Join(body, "\n");
    } else {
      assert FrameLines(f) == body;
    }
  }

  lemma DigitsFirst(s: string)
    requires forall i :: 0 <= i < |s| ==> IsDigit(s[i])
    ensures DigitPrefix(s) == s
  {
  }

  lemma ReadId(n: nat)
    ensures ParseInt(Trim(FromNat(n))) == Some(n)
  {
    hide FromNat, ToNat, Trim;
    var s := FromNat(n);
    FromNatToNat(n);
    DigitsTrim(s);
    DigitsFirst(s);
  }

  lemma DigitsTrim(s: string)
    requires AllDigits(s)
    ensures Trim(s) == s && TrimStart(s) == s
  {
    TrimNothing(s);
  }

  lemma IdLine(fields: Fields, n: nat, prevSeq: int)
    requires n > prevSeq
    ensures TakeLine(fields, "id: " + FromNat(n), prevSeq) == fields.(id := Some(n))
  {
    hide FromNat, ParseInt, Trim;
    ReadId(n);
    assert ("id: " + FromNat(n))[4..] == FromNat(n);
  }

  lemma EventLine(fields: Fields, name: string, prevSeq: int)
    requires Trim(name) == name
    ensures TakeLine(fields, "event: " + name, prevSeq) == fields.(event := Some(name))
  {
    hide Trim, ParseInt;
    var line := "event: " + name;
    assert line[0] == 'e' && line[7..] == name && StartsWith(line, "event: ");
  }

  lemma DataLine(fields: Fields, data: string, prevSeq: int)
    ensures TakeLine(fields, "data: " + data, prevSeq) == fields.(data := Some(data))
  {
    hide Trim, ParseInt;
    var line := "data: " + data;
    assert line[0] == 'd' && line[6..] == data && StartsWith(line, "data: ");
  }

  /** Reading a frame's block gives the event it was written for, id included when it is new. */
  lemma FrameRoundTrip<P>(f: Frame, prevSeq: int, json: string -> Option<P>)
    requires WellFormed(f, json)
    requires f.id.Some? ==> f.id.value > prevSeq
    ensures Parse(BlockText(f), prevSeq, json)
            == Some(Event(match f.id case Some(n) => Some(n as int) case None => None, f.name, json(f.data).value))
  {
    hide Trim, FromNat, TakeLine, Split;
    var lines := FrameLines(f);
    assert forall k :: 0 <= k < |lines| ==> '\n' !in lines[k] by {
      LinesArePlain(f, json);
    }
    SplitJoin(lines, '\n');
    FrameFields(f, prevSeq);
  }

  lemma FrameFields(f: Frame, prevSeq: int)
    requires Trim(f.name) == f.name
    requires f.id.Some? ==> f.id.value > prevSeq
    ensures TakeLines(FrameLines(f), prevSeq)
            == Fields(match f.id case Some(n) => Some(n as int) case None => None, Some(f.name), Some(f.data))
  {
    hide Trim, FromNat, TakeLine;
    var none := Fields(None, None, None);
    var e, d := "event: " + f.name, "data: " + f.data;
    if f.id.Some? {
      var i := "id: " + FromNat(f.id.value);
      assert FrameLines(f) == [i, e, d];
      ThreeLines(i, e, d, prevSeq);
      IdLine(none, f.id.value, prevSeq);
      EventLine(none.(id := Some(f.id.value)), f.name, prevSeq);
      DataLine(Fields(Some(f.id.value), Some(f.name), None), f.data, prevSeq);
    } else {
      assert FrameLines(f) == [e, d];
      TwoLines(e, d, prevSeq);
      EventLine(none, f.name, prevSeq);
      DataLine(Fields(None, Some(f.name), None), f.data, prevSeq);
    }
  }

  lemma TwoLines(a: string, b: string, prevSeq: int)
    ensures TakeLines([a, b], prevSeq) == TakeLine(TakeLine(Fields(None, None, None), a, prevSeq), b, prevSeq)
  {
    hide TakeLine;
    assert Front([a, b]) == [a] && Front([a]) == [];
    assert Last([a]) == a && TakeLines([a], prevSeq) == TakeLine(TakeLines([], prevSeq), a, prevSeq);
  }

  lemma ThreeLines(a: string, b: string, c: string, prevSeq: int)
    ensures TakeLines([a, b, c], prevSeq)
            == TakeLine(TakeLine(TakeLine(Fields(None, None, None), a, prevSeq), b, prevSeq), c, prevSeq)
  {
    hide TakeLine;
    TwoLines(a, b, prevSeq);
    assert Front([a, b, c]) == [a, b];
  }

  lemma LinesArePlain<P>(f: Frame, json: string -> Option<P>)
    requires WellFormed(f, json)
    ensures forall k :: 0 <= k < |FrameLines(f)| ==> '\n' !in FrameLines(f)[k] && FrameLines(f)[k] != ""
  {
    if f.id.Some? {
      assert AllDigits(FromNat(f.id.value));
    }
  }

  /** Non-empty lines without line breaks, joined, hold no empty line and do not end in a break. */
  lemma {:induction false} JoinedLines(lines: seq<string>)
    requires |lines| > 0
    requires forall k :: 0 <= k < |lines| ==> '\n' !in lines[k] && lines[k] != ""
    ensures var s := Join(lines, "\n");
            && s != "" && s[0] != '\n' && s[|s| - 1] != '\n'
            && forall k :: 0 <= k < |s| - 1 ==> !(s[k] == '\n' && s[k + 1] == '\n')
  {
    if |lines| > 1 {
      var rest := Join(lines[1..], "\n");
      JoinedLines(lines[1..]);
      var s := Join(lines, "\n");
      assert s == lines[0] + "\n" + rest;
      var n := |lines[0]|;
      assert forall k :: 0 <= k < n ==> s[k] == lines[0][k] && s[k] != '\n';
      assert forall k :: n < k < |s| ==> s[k] == rest[k - n - 1];
    }
  }
}
