/**
 What a request's head says, on the wire: the reader's splitting of it undoes writing one, its
 numbers are read as they are written, and the answer follows from the fields written.
 */
module CuHead {
  import opened Options
  import opened CuRequest

  // ----- numbers

  function Digit(d: nat): char
    requires d < 10
  {
    ('0' as int + d) as char
  }

  function Decimal(n: nat): (s: string)
    ensures s != ""
  {
    if n < 10 then [Digit(n)] else Decimal(n / 10) + [Digit(n % 10)]
  }

  function Zeros(k: nat): string {
    seq(k, _ => '0')
  }

  /** A number as a client may write it: with or without a plus sign, after any number of zeros. */
  function Numeral(plus: bool, zeros: nat, n: nat): string {
    (if plus then "+" else "") + (Zeros(zeros) + Decimal(n))
  }

  lemma {:induction false} DigitsOfDecimal(zeros: nat, n: nat)
    ensures Digits(Zeros(zeros) + Decimal(n)) == Some(n)
  {
    var s := Zeros(zeros) + Decimal(n);
    if n < 10 {
      assert s[..|s| - 1] == Zeros(zeros);
      DigitsOfZeros(zeros);
    } else {
      assert s[..|s| - 1] == Zeros(zeros) + Decimal(n / 10);
      DigitsOfDecimal(zeros, n / 10);
    }
  }

  lemma {:induction false} DigitsOfZeros(zeros: nat)
    ensures Digits(Zeros(zeros)) == Some(0)
  {
    if zeros > 0 {
      assert Zeros(zeros)[..zeros - 1] == Zeros(zeros - 1);
      DigitsOfZeros(zeros - 1);
    }
  }

  lemma {:induction false} DigitsAreDecimal(s: string) returns (zeros: nat)
    requires s != "" && Digits(s).Some?
    ensures s == Zeros(zeros) + Decimal(Digits(s).value)
  {
    var front, c, n := s[..|s| - 1], s[|s| - 1], Digits(s).value;
    var m := Digits(front).value;
    if front == [] {
      zeros := 0;
    } else {
      zeros := DigitsAreDecimal(front);
      if m == 0 {
        zeros := zeros + 1;
        assert front == Zeros(zeros);
      } else {
        assert n / 10 == m && Decimal(n) == Decimal(m) + [c];
      }
    }
    assert s == front + [c];
  }

  /** A length is read exactly where it is written in decimal and fits 64 bits, and as what is written. */
  lemma {:induction false} ParsesExactly(s: string, n: nat)
    ensures ParseUsize(s) == Some(n) <==>
      n <= 18446744073709551615 && exists plus: bool, zeros: nat :: s == Numeral(plus, zeros, n)
  {
    if n <= 18446744073709551615 {
      if plus: bool, zeros: nat :| s == Numeral(plus, zeros, n) {
        NumeralParses(plus, zeros, n);
      }
    }
    if ParseUsize(s) == Some(n) {
      var plus, zeros := ParsedIsNumeral(s, n);
    }
  }

  lemma NumeralParses(plus: bool, zeros: nat, n: nat)
    requires n <= 18446744073709551615
    ensures ParseUsize(Numeral(plus, zeros, n)) == Some(n)
  {
    NumeralStarts(plus, zeros, n);
    DigitsOfDecimal(zeros, n);
  }

  lemma ParsedIsNumeral(s: string, n: nat) returns (plus: bool, zeros: nat)
    requires ParseUsize(s) == Some(n)
    ensures n <= 18446744073709551615 && s == Numeral(plus, zeros, n)
  {
    plus := s[0] == '+';
    zeros := DigitsAreDecimal(if plus then s[1..] else s);
    assert plus ==> s == "+" + s[1..];
  }

  lemma {:induction false} DecimalStarts(n: nat)
    ensures '0' <= Decimal(n)[0] <= '9'
  {
    if n >= 10 {
      DecimalStarts(n / 10);
    }
  }

  lemma NumeralStarts(plus: bool, zeros: nat, n: nat)
    ensures var s := Numeral(plus, zeros, n);
            (s[0] == '+') == plus && (if plus then s[1..] else s) == Zeros(zeros) + Decimal(n)
  {
    DecimalStarts(n);
    assert zeros > 0 ==> Zeros(zeros)[0] == '0';
  }

  // ----- lines and words

  /** No line ends inside `s`. */
  predicate Unbroken(s: string) {
    forall i :: 0 <= i < |s| - 1 ==> !(s[i] == '\r' && s[i + 1] == '\n')
  }

  predicate AreLines(lines: seq<string>) {
    forall l :: l in lines ==> Unbroken(l)
  }

  function JoinedLines(lines: seq<string>): string
    requires lines != []
  {
    if |lines| == 1 then lines[0] else lines[0] + ("\r\n" + JoinedLines(lines[1..]))
  }

  lemma {:induction false} BreakAfter(line: string, rest: string)
    requires Unbroken(line)
    ensures LineBreak(line) == |line|
    ensures LineBreak(line + ("\r\n" + rest)) == |line|
  {
    var s := line + ("\r\n" + rest);
    if line != [] {
      BreakAfter(line[1..], rest);
      assert s[1..] == line[1..] + ("\r\n" + rest);
    }
  }

  lemma FirstLine(line: string, rest: string)
    requires Unbroken(line)
    ensures Lines(line + ("\r\n" + rest)) == [line] + Lines(rest)
  {
    BreakAfter(line, rest);
    var s := line + ("\r\n" + rest);
    assert s[..|line|] == line && s[|line| + 2..] == rest;
  }

  /** Lines joined are told apart again. */
  lemma {:induction false} LinesReadBack(lines: seq<string>)
    requires lines != [] && AreLines(lines)
    ensures Lines(JoinedLines(lines)) == lines
  {
    assert lines[0] in lines;
    if |lines| == 1 {
      BreakAfter(lines[0], "");
    } else {
      var rest := JoinedLines(lines[1..]);
      FirstLine(lines[0], rest);
      LinesReadBack(lines[1..]);
      assert [lines[0]] + lines[1..] == lines;
    }
  }

  lemma {:induction false} FirstBreak(s: string)
    ensures var i := LineBreak(s);
            Unbroken(s[..i]) && (i < |s| ==> s[i..i + 2] == "\r\n") && (i == |s| ==> s[..i] == s)
  {
    if |s| >= 2 && !(s[0] == '\r' && s[1] == '\n') {
      FirstBreak(s[1..]);
      var i := LineBreak(s[1..]);
      assert s[1..][..i] == s[1..i + 1];
      forall k | 0 <= k < i ensures !(s[k] == '\r' && s[k + 1] == '\n') {
        assert k > 0 ==> s[1..i + 1][k - 1] == s[k] && s[1..i + 1][k] == s[k + 1];
      }
    }
  }

  lemma AllUnbroken(line: string, rest: seq<string>)
    requires Unbroken(line) && AreLines(rest) && rest != []
    ensures AreLines([line] + rest) && JoinedLines([line] + rest) == line + ("\r\n" + JoinedLines(rest))
  {
    assert ([line] + rest)[1..] == rest;
  }

  /** And every text is its lines joined. */
  lemma {:induction false} EveryTextIsLines(s: string)
    ensures JoinedLines(Lines(s)) == s && AreLines(Lines(s))
    decreases |s|
  {
    FirstBreak(s);
    var i := LineBreak(s);
    if i == |s| {
      assert Lines(s) == [s] && Unbroken(s);
    } else {
      var line, rest := s[..i], Lines(s[i + 2..]);
      EveryTextIsLines(s[i + 2..]);
      assert Lines(s) == [line] + rest;
      AllUnbroken(line, rest);
      assert s == line + ("\r\n" + s[i + 2..]);
    }
  }

  lemma {:induction false} IndexAfter(a: string, c: char, rest: string)
    requires c !in a && (rest == [] || rest[0] == c)
    ensures IndexOf(a + rest, c) == |a|
  {
    if a == [] {
      assert a + rest == rest;
    } else {
      assert (a + rest)[1..] == a[1..] + rest;
      IndexAfter(a[1..], c, rest);
    }
  }

  /** Words are what single separators stand between, empty ones included. */
  lemma SplitWord(word: string, c: char, rest: string)
    requires c !in word
    ensures Split(word, c) == [word]
    ensures Split(word + ([c] + rest), c) == [word] + Split(rest, c)
  {
    IndexAfter(word, c, []);
    assert word + [] == word;
    IndexAfter(word, c, [c] + rest);
    var s := word + ([c] + rest);
    assert s[..|word|] == word && s[|word| + 1..] == rest;
  }

  // ----- header fields

  predicate SameLetter(c: char, d: char) {
    || c == d
    || ('A' <= c <= 'Z' && d as int == c as int + 32)
    || ('A' <= d <= 'Z' && c as int == d as int + 32)
  }

  predicate SameName(a: string, b: string) {
    |a| == |b| && forall i :: 0 <= i < |a| ==> SameLetter(a[i], b[i])
  }

  predicate Blank(s: string) {
    forall c :: c in s ==> IsWhitespace(c)
  }

  /** A value with no whitespace around it. */
  predicate Bare(value: string) {
    value != "" ==> !IsWhitespace(value[0]) && !IsWhitespace(value[|value| - 1])
  }

  /** The name of `line` ends at its first colon, `i`, and is `name` in some case. */
  predicate NameAt(line: string, i: nat, name: string) {
    i < |line| && line[i] == ':' && ':' !in line[..i] && SameName(line[..i], name)
  }

  ghost predicate IsNamed(line: string, name: string) {
    exists i: nat :: NameAt(line, i, name)
  }

  predicate ValueAt(line: string, i: nat, j: nat, k: nat, value: string) {
    i < j <= k <= |line| && Blank(line[i + 1..j]) && value == line[j..k] && Bare(value) && Blank(line[k..])
  }

  /** `line` is `name`, a colon, and `value` with any whitespace around it. */
  ghost predicate Says(line: string, name: string, value: string) {
    exists i: nat, j: nat, k: nat :: NameAt(line, i, name) && ValueAt(line, i, j, k, value)
  }

  ghost predicate Silent(lines: seq<string>, name: string) {
    forall l :: l in lines ==> !IsNamed(l, name)
  }

  /** The last line named `name` says `value`. */
  ghost predicate LastSays(lines: seq<string>, name: string, value: string) {
    exists at: nat :: LastSaysAt(lines, at, name, value)
  }

  ghost predicate LastSaysAt(lines: seq<string>, at: nat, name: string, value: string) {
    at < |lines| && Says(lines[at], name, value) && Silent(lines[at + 1..], name)
  }

  predicate IsLower(name: string) {
    forall i :: 0 <= i < |name| ==> !('A' <= name[i] <= 'Z')
  }

  lemma {:induction false} LowerIsSameName(a: string, name: string)
    requires IsLower(name)
    ensures Lower(a) == name <==> SameName(a, name)
  {
    if SameName(a, name) {
      forall i | 0 <= i < |a| ensures Lower(a)[i] == name[i] {
        assert SameLetter(a[i], name[i]);
      }
    }
    if Lower(a) == name {
      forall i | 0 <= i < |a| ensures SameLetter(a[i], name[i]) {
        assert Lower(a)[i] == name[i];
      }
    }
  }

  lemma {:induction false} TrimmedIs(before: string, value: string, after: string)
    requires Blank(before) && Bare(value) && Blank(after)
    ensures Trimmed(before + value + after) == value
    decreases |before| + |after|
  {
    var s := before + value + after;
    if before != [] {
      assert s[1..] == before[1..] + value + after;
      TrimmedIs(before[1..], value, after);
    } else if value == [] {
      assert s == after;
      if after != [] {
        assert after[1..] == [] + [] + after[1..];
        TrimmedIs([], [], after[1..]);
      }
    } else if after != [] {
      var front := after[..|after| - 1];
      assert s[..|s| - 1] == [] + value + front;
      TrimmedIs([], value, front);
    } else {
      assert s == value;
    }
  }

  lemma NameFound(line: string, i: nat, name: string)
    requires NameAt(line, i, name) && IsLower(name)
    ensures IndexOf(line, ':') == i && Lower(line[..i]) == name
  {
    assert line == line[..i] + line[i..];
    IndexAfter(line[..i], ':', line[i..]);
    LowerIsSameName(line[..i], name);
  }

  lemma {:induction false} ColonIsFirst(s: string, c: char)
    ensures c !in s[..IndexOf(s, c)]
  {
    if s != [] && s[0] != c {
      ColonIsFirst(s[1..], c);
      assert s[..IndexOf(s, c)] == [s[0]] + s[1..][..IndexOf(s[1..], c)];
    }
  }

  lemma NotNamed(line: string, name: string)
    requires !IsNamed(line, name) && IsLower(name)
    ensures var i := IndexOf(line, ':'); i == |line| || Lower(line[..i]) != name
  {
    var i := IndexOf(line, ':');
    ColonIsFirst(line, ':');
    if i < |line| {
      LowerIsSameName(line[..i], name);
      assert !NameAt(line, i, name);
    }
  }

  lemma ValueFound(line: string, i: nat, j: nat, k: nat, value: string)
    requires ValueAt(line, i, j, k, value)
    ensures Trimmed(line[i + 1..]) == value
  {
    assert line[i + 1..] == line[i + 1..j] + value + line[k..];
    TrimmedIs(line[i + 1..j], value, line[k..]);
  }

  lemma SaysIsNamed(line: string, name: string, value: string)
    requires Says(line, name, value)
    ensures IsNamed(line, name)
  {
    var i: nat, j: nat, k: nat :| NameAt(line, i, name) && ValueAt(line, i, j, k, value);
  }

  /** What a line that says something does to the fields read so far. */
  lemma LineRead(f: Fields, line: string, name: string, value: string)
    requires Says(line, name, value) && IsLower(name)
    ensures WithLine(f, line) ==
      if name == "authorization" then f.(authorization := Some(value))
      else if name == "content-length" then f.(length := ParseUsize(value))
      else if name == "transfer-encoding" then f.(chunked := true)
      else f
  {
    var i: nat, j: nat, k: nat :| NameAt(line, i, name) && ValueAt(line, i, j, k, value);
    NameFound(line, i, name);
    ValueFound(line, i, j, k, value);
  }

  lemma AuthorizationKept(f: Fields, line: string)
    requires !IsNamed(line, "authorization")
    ensures WithLine(f, line).authorization == f.authorization
  {
    NotNamed(line, "authorization");
  }

  lemma LengthKept(f: Fields, line: string)
    requires !IsNamed(line, "content-length")
    ensures WithLine(f, line).length == f.length
  {
    NotNamed(line, "content-length");
  }

  lemma ChunkedExactly(f: Fields, line: string)
    ensures WithLine(f, line).chunked <==> f.chunked || IsNamed(line, "transfer-encoding")
  {
    if i: nat :| NameAt(line, i, "transfer-encoding") {
      NameFound(line, i, "transfer-encoding");
    } else {
      NotNamed(line, "transfer-encoding");
    }
  }

  /** The credentials are what the last Authorization line says. */
  lemma {:induction false} AuthorizationExactly(lines: seq<string>)
    ensures Silent(lines, "authorization") ==> FieldsOf(lines).authorization == None
    ensures forall value :: LastSays(lines, "authorization", value) ==> FieldsOf(lines).authorization == Some(value)
  {
    if lines != [] {
      var n := |lines| - 1;
      var front, f := lines[..n], FieldsOf(lines[..n]);
      AuthorizationExactly(front);
      assert lines[n] in lines && forall l :: l in front ==> l in lines;
      if !IsNamed(lines[n], "authorization") {
        AuthorizationKept(f, lines[n]);
      }
      forall value | LastSays(lines, "authorization", value)
        ensures FieldsOf(lines).authorization == Some(value)
      {
        var at: nat :| LastSaysAt(lines, at, "authorization", value);
        if at == n {
          LineRead(f, lines[n], "authorization", value);
        } else {
          SaidBefore(lines, at, "authorization", value);
        }
      }
    }
  }

  lemma SaidBefore(lines: seq<string>, at: nat, name: string, value: string)
    requires LastSaysAt(lines, at, name, value) && at < |lines| - 1
    ensures LastSays(lines[..|lines| - 1], name, value) && !IsNamed(lines[|lines| - 1], name)
  {
    var n := |lines| - 1;
    var after := lines[at + 1..];
    assert after[|after| - 1] == lines[n] && lines[n] in after;
    assert lines[..n][at + 1..] == after[..|after| - 1];
    assert LastSaysAt(lines[..n], at, name, value);
  }

  /** The length announced is what the last Content-Length line says, and 0 without one. */
  lemma {:induction false} LengthExactly(lines: seq<string>)
    ensures Silent(lines, "content-length") ==> FieldsOf(lines).length == Some(0)
    ensures forall value :: LastSays(lines, "content-length", value) ==> FieldsOf(lines).length == ParseUsize(value)
  {
    if lines != [] {
      var n := |lines| - 1;
      var front, f := lines[..n], FieldsOf(lines[..n]);
      LengthExactly(front);
      assert lines[n] in lines && forall l :: l in front ==> l in lines;
      if !IsNamed(lines[n], "content-length") {
        LengthKept(f, lines[n]);
      }
      forall value | LastSays(lines, "content-length", value)
        ensures FieldsOf(lines).length == ParseUsize(value)
      {
        var at: nat :| LastSaysAt(lines, at, "content-length", value);
        if at == n {
          LineRead(f, lines[n], "content-length", value);
        } else {
          SaidBefore(lines, at, "content-length", value);
        }
      }
    }
  }

  /** A request is chunked exactly where it has a Transfer-Encoding line. */
  lemma {:induction false} TransferEncodingExactly(lines: seq<string>)
    ensures FieldsOf(lines).chunked <==> !Silent(lines, "transfer-encoding")
  {
    if lines != [] {
      var n := |lines| - 1;
      TransferEncodingExactly(lines[..n]);
      ChunkedExactly(FieldsOf(lines[..n]), lines[n]);
      assert lines == lines[..n] + [lines[n]];
    }
  }

  /** Optional whitespace, as RFC 9110 section 5.6.3 has it. */
  predicate OptionalWhitespace(s: string) {
    forall c :: c in s ==> c == ' ' || c == '\t'
  }

  /** A value that neither starts nor ends with anything but a visible ASCII character. */
  predicate Visible(value: string) {
    value != "" ==> '!' <= value[0] <= '~' && '!' <= value[|value| - 1] <= '~'
  }

  /** A field line as RFC 9112 section 5 has it says its value, its name in any case. */
  lemma {:induction false} FieldLineSays(written: string, name: string, before: string, value: string, after: string)
    requires ':' !in written && SameName(written, name) && OptionalWhitespace(before) && Visible(value) && OptionalWhitespace(after)
    ensures Says(written + (":" + (before + value + after)), name, value)
  {
    var line := written + (":" + (before + value + after));
    var i, j, k := |written|, |written| + 1 + |before|, |written| + 1 + |before| + |value|;
    assert line[..i] == written && line[i] == ':';
    assert NameAt(line, i, name);
    assert line[i + 1..j] == before && line[j..k] == value && line[k..] == after;
    assert ValueAt(line, i, j, k, value);
  }

  // ----- requests

  /** `value` is what `lines` say of `name`, None where they do not name it. */
  ghost predicate Given(lines: seq<string>, name: string, value: Option<string>) {
    if value.None? then Silent(lines, name) else LastSays(lines, name, value.value)
  }

  /** A head as it is written: the request line, and the header lines, each line ended by CR LF but the last. */
  function HeadText(verb: string, target: string, tail: string, headers: seq<string>): string {
    JoinedLines([verb + (" " + (target + tail))] + headers)
  }

  /** Its parts are what they look like: what follows the target is nothing, or a space and anything. */
  predicate Wellformed(verb: string, target: string, tail: string, headers: seq<string>) {
    && ' ' !in verb && ' ' !in target && (tail == "" || tail[0] == ' ')
    && Unbroken(verb + (" " + (target + tail)))
    && AreLines(headers)
  }

  lemma TargetRead(verb: string, target: string, tail: string)
    requires ' ' !in verb && ' ' !in target && (tail == "" || tail[0] == ' ')
    ensures var words := Split(verb + (" " + (target + tail)), ' ');
            |words| >= 2 && words[1] == target
  {
    SplitWord(verb, ' ', target + tail);
    if tail == "" {
      assert target + tail == target;
      SplitWord(target, ' ', "");
    } else {
      assert tail == " " + tail[1..];
      SplitWord(target, ' ', tail[1..]);
    }
  }

  lemma HeadTextRead(verb: string, target: string, tail: string, headers: seq<string>)
    requires Wellformed(verb, target, tail, headers)
    ensures Lines(HeadText(verb, target, tail, headers)) == [verb + (" " + (target + tail))] + headers
  {
    var lines := [verb + (" " + (target + tail))] + headers;
    LinesReadBack(lines);
  }

  /**
   The answer to a written request: 401 without good credentials, then 411 where it is chunked or
   its length is no number, then 413 where that is over 4 MiB; it is dropped where it ends before
   its body does, refused with 400 where its body is no UTF-8, and otherwise accepted, at its
   target and with the body announced.
   */
  lemma {:induction false} WrittenRequestAnswered(
    all: seq<Byte>, end: nat, cfg: Config, verb: string, target: string, tail: string, headers: seq<string>,
    credentials: Option<string>, length: Option<string>)
    requires end + 4 <= |all| && Wellformed(verb, target, tail, headers)
    requires cfg.utf8(all[..end]) == Some(HeadText(verb, target, tail, headers))
    requires Given(headers, "authorization", credentials) && Given(headers, "content-length", length)
    ensures var answer := Answer(all, end, cfg);
            var announced := if length.Some? then ParseUsize(length.value) else Some(0);
            if !cfg.authorized(credentials) then answer == Refused(401)
            else if !Silent(headers, "transfer-encoding") || announced.None? then answer == Refused(411)
            else if announced.value > 4194304 then answer == Refused(413)
            else if end + 4 + announced.value > |all| then answer == Dropped
            else
              var body := all[end + 4..end + 4 + announced.value];
              answer == if cfg.utf8(body).Some? then Accepted(target, body) else Refused(400)
  {
    HeadTextRead(verb, target, tail, headers);
    TargetRead(verb, target, tail);
    GivenFields(headers, credentials, length);
    assert ([verb + (" " + (target + tail))] + headers)[1..] == headers;
    var f := FieldsOf(headers);
    assert VerdictOn(all[..end], cfg) == Judged(target, f, cfg);
    if f.length.Some? && end + 4 + f.length.value <= |all| {
      assert all[end + 4..][..f.length.value] == all[end + 4..end + 4 + f.length.value];
    }
  }

  lemma GivenFields(headers: seq<string>, credentials: Option<string>, length: Option<string>)
    requires Given(headers, "authorization", credentials) && Given(headers, "content-length", length)
    ensures FieldsOf(headers) ==
      Fields(credentials, if length.Some? then ParseUsize(length.value) else Some(0), !Silent(headers, "transfer-encoding"))
  {
    AuthorizationExactly(headers);
    LengthExactly(headers);
    TransferEncodingExactly(headers);
  }

  /** Header lines say something of every name, or are silent on it. */
  lemma {:induction false} EveryNameIsGiven(lines: seq<string>, name: string) returns (value: Option<string>)
    ensures Given(lines, name, value)
  {
    if lines == [] {
      value := None;
    } else if IsNamed(lines[0], name) && Silent(lines[1..], name) {
      var said := NamedSays(lines[0], name);
      assert LastSaysAt(lines, 0, name, said);
      value := Some(said);
    } else {
      value := EveryNameIsGiven(lines[1..], name);
      if value.Some? {
        var at: nat :| LastSaysAt(lines[1..], at, name, value.value);
        assert lines[1..][at + 1..] == lines[at + 2..];
        assert LastSaysAt(lines, at + 1, name, value.value);
      } else {
        assert lines == [lines[0]] + lines[1..];
      }
    }
  }

  lemma NamedSays(line: string, name: string) returns (value: string)
    requires IsNamed(line, name)
    ensures Says(line, name, value)
  {
    var i: nat :| NameAt(line, i, name);
    var j, k := Bounds(line, i + 1);
    value := line[j..k];
    assert ValueAt(line, i, j, k, value);
  }

  /** Where what stands from `j` on begins and ends, the whitespace around it left out. */
  lemma {:induction false} Bounds(line: string, start: nat) returns (j: nat, k: nat)
    requires start <= |line|
    ensures start <= j <= k <= |line| && Blank(line[start..j]) && Bare(line[j..k]) && Blank(line[k..])
    decreases |line| - start
  {
    if start < |line| && IsWhitespace(line[start]) {
      j, k := Bounds(line, start + 1);
      assert line[start..j] == [line[start]] + line[start + 1..j];
    } else {
      j := start;
      k := LastInk(line, start);
    }
  }

  lemma {:induction false} LastInk(line: string, start: nat) returns (k: nat)
    requires start <= |line| && (start < |line| ==> !IsWhitespace(line[start]))
    ensures start <= k <= |line| && Bare(line[start..k]) && Blank(line[k..])
    decreases |line|
  {
    if start < |line| && IsWhitespace(line[|line| - 1]) {
      var front, last := line[..|line| - 1], line[|line| - 1];
      k := LastInk(front, start);
      assert line == front + [last];
      assert line[start..k] == front[start..k];
      assert line[k..] == front[k..] + [last];
    } else {
      k := |line|;
    }
  }

  /** A head that is no text, or whose request line has no space, is dropped without an answer. */
  lemma {:induction false} NoRequestLine(all: seq<Byte>, end: nat, cfg: Config, line: string, headers: seq<string>)
    requires end + 4 <= |all| && ' ' !in line && Unbroken(line) && AreLines(headers)
    requires cfg.utf8(all[..end]) in {None, Some(JoinedLines([line] + headers))}
    ensures Answer(all, end, cfg) == Dropped
  {
    LinesReadBack([line] + headers);
    SplitWord(line, ' ', "");
  }

  /**
   A small enough request is answered as `Answer` says however its bytes arrive, and one whose
   head is too long is refused with 431: 16385 and 20480 bytes are the two bounds.
   */
  lemma {:induction false} OutcomesExactly(all: seq<Byte>, cfg: Config, outcome: Outcome)
    ensures FirstEnd(all).Some? && FirstEnd(all).value + 4 <= 16385 ==>
      (outcome in Outcomes(all, cfg) <==> outcome == Answer(all, FirstEnd(all).value, cfg))
    ensures FirstEnd(all).Some? && 16385 < FirstEnd(all).value + 4 <= 20480 ==>
      (outcome in Outcomes(all, cfg) <==> outcome == Answer(all, FirstEnd(all).value, cfg) || outcome == Refused(431))
    ensures FirstEnd(all).Some? && FirstEnd(all).value + 4 > 20480 ==>
      (outcome in Outcomes(all, cfg) <==> outcome == Refused(431))
    ensures FirstEnd(all).None? ==>
      (outcome in Outcomes(all, cfg) <==> outcome == if |all| > 16384 then Refused(431) else Dropped)
  {
  }

  /** The end of a head is where an empty line first stands. */
  lemma {:induction false} FirstEndExactly(s: seq<Byte>, i: nat)
    ensures FirstEnd(s) == Some(i) <==> EmptyLineAt(s, i) && forall k: nat :: k < i ==> !EmptyLineAt(s, k)
  {
    if |s| >= 4 {
      assert s[..4] == [s[0], s[1], s[2], s[3]];
      if s[..4] == HEAD_END {
        assert EmptyLineAt(s, 0);
      } else {
        assert !EmptyLineAt(s, 0);
        if i > 0 {
          FirstEndExactly(s[1..], i - 1);
          assert forall k: nat :: EmptyLineAt(s[1..], k) <==> EmptyLineAt(s, k + 1);
          if FirstEnd(s) == Some(i) {
            forall k: nat | k < i ensures !EmptyLineAt(s, k) {
              assert k > 0 ==> !EmptyLineAt(s[1..], k - 1);
            }
          }
        }
      }
    }
  }

  predicate EmptyLineAt(s: seq<Byte>, i: nat) {
    i + 4 <= |s| && s[i] == 13 && s[i + 1] == 10 && s[i + 2] == 13 && s[i + 3] == 10
  }
}
