/**
 The bounded reader of one HTTP/1.1 request: its head is looked for in a growing buffer, whatever
 pieces the network delivers, and its body is read to the length the head announces.

 `HeadRead` is the search as a function of the pieces received, `Answer` what a request with its
 head found is answered with. The class `Connection` is the socket, which may deliver any number
 of bytes at a time or fail at any read, and `ReadCuRequest` is the code.
 */
module CuRequest {
  import opened Options

  type Byte = x: int | 0 <= x < 256

  const MAX_CU_HEAD: nat := 16 * 1024
  const MAX_CU_BODY: nat := 4 * 1024 * 1024
  const CHUNK: nat := 4096
  const USIZE_MAX: nat := 0xFFFF_FFFF_FFFF_FFFF

  /** CR LF CR LF. */
  const HEAD_END: seq<Byte> := [13, 10, 13, 10]

  /** Where the head ends: the first place the empty line stands. */
  function FirstEnd(s: seq<Byte>): (i: Option<nat>)
    ensures i.Some? ==> i.value + 4 <= |s| && s[i.value..i.value + 4] == HEAD_END
  {
    if |s| < 4 then None
    else if s[..4] == HEAD_END then Some(0)
    else
      match FirstEnd(s[1..])
      case None => None
      case Some(i) => assert s[1..][i..i + 4] == s[i + 1..i + 5]; Some(i + 1)
  }

  /** `Found` in `buf` at `end`, given up on as too large, or ended by the client. */
  datatype Head = Found(buf: seq<Byte>, end: nat) | TooLarge(buf: seq<Byte>) | Ended(buf: seq<Byte>)

  /** The search over `chunks`, with `buf` read before them. */
  function HeadRead(buf: seq<Byte>, chunks: seq<seq<Byte>>): Head
    decreases |chunks|
  {
    var end := FirstEnd(buf);
    if end.Some? then Found(buf, end.value)
    else if |buf| > MAX_CU_HEAD then TooLarge(buf)
    else if chunks == [] then Ended(buf)
    else HeadRead(buf + chunks[0], chunks[1..])
  }

  /** What became of a connection: nothing said, refused with a status, or a path and a body. */
  datatype Outcome = Dropped | Refused(status: nat) | Accepted(path: string, body: seq<Byte>)

  /** What the reader leaves to others: text decoding, and which credentials are good. */
  datatype Config = Config(utf8: seq<Byte> -> Option<string>, authorized: Option<string> -> bool)

  function IndexOf(s: string, c: char): (i: nat)
    ensures i <= |s| && (i < |s| ==> s[i] == c)
  {
    if s == [] || s[0] == c then 0 else 1 + IndexOf(s[1..], c)
  }

  function Split(s: string, c: char): (parts: seq<string>)
    ensures parts != []
    decreases |s|
  {
    var i := IndexOf(s, c);
    if i == |s| then [s] else [s[..i]] + Split(s[i + 1..], c)
  }

  function LineBreak(s: string): (i: nat)
    ensures i <= |s| && (i < |s| ==> i + 2 <= |s|)
  {
    if |s| < 2 then |s|
    else if s[0] == '\r' && s[1] == '\n' then 0
    else
      var i := LineBreak(s[1..]);
      i + 1
  }

  function Lines(s: string): (lines: seq<string>)
    ensures lines != []
    decreases |s|
  {
    var i := LineBreak(s);
    if i == |s| then [s] else [s[..i]] + Lines(s[i + 2..])
  }

  predicate IsWhitespace(c: char) {
    || '\t' <= c <= '\r' || c == ' ' || c == '\U{85}' || c == '\U{A0}' || c == '\U{1680}' || '\U{2000}' <= c <= '\U{200A}'
    || c == '\U{2028}' || c == '\U{2029}' || c == '\U{202F}' || c == '\U{205F}' || c == '\U{3000}'
  }

  function Trimmed(s: string): string
    decreases |s|
  {
    if s == [] then s
    else if IsWhitespace(s[0]) then Trimmed(s[1..])
    else if IsWhitespace(s[|s| - 1]) then Trimmed(s[..|s| - 1])
    else s
  }

  function Lower(s: string): string {
    seq(|s|, i requires 0 <= i < |s| => if 'A' <= s[i] <= 'Z' then (s[i] as int + 32) as char else s[i])
  }

  function Digits(s: string): Option<nat> {
    if s == [] then Some(0)
    else
      var c := s[|s| - 1];
      match Digits(s[..|s| - 1])
      case None => None
      case Some(n) => if '0' <= c <= '9' then Some(n * 10 + (c as int - '0' as int)) else None
  }

  /** `str::parse::<usize>`: digits, after at most one plus sign, that fit the type. */
  function ParseUsize(s: string): Option<nat> {
    var digits := if s != [] && s[0] == '+' then s[1..] else s;
    if digits == [] then None
    else
      match Digits(digits)
      case None => None
      case Some(n) => if n <= USIZE_MAX then Some(n) else None
  }

  /** What the header lines say; a later line of a name replaces an earlier one. */
  datatype Fields = Fields(authorization: Option<string>, length: Option<nat>, chunked: bool)

  function WithLine(f: Fields, line: string): Fields {
    var i := IndexOf(line, ':');
    if i == |line| then f
    else
      var name, value := Lower(line[..i]), Trimmed(line[i + 1..]);
      if name == "authorization" then f.(authorization := Some(value))
      else if name == "content-length" then f.(length := ParseUsize(value))
      else if name == "transfer-encoding" then f.(chunked := true)
      else f
  }

  function FieldsOf(lines: seq<string>): Fields {
    if lines == [] then Fields(None, Some(0), false)
    else WithLine(FieldsOf(lines[..|lines| - 1]), lines[|lines| - 1])
  }

  /** What the head alone decides: an outcome, or the path and the length of body to read. */
  datatype Verdict = Over(outcome: Outcome) | Wants(path: string, length: nat)

  function Judged(path: string, f: Fields, cfg: Config): Verdict {
    if !cfg.authorized(f.authorization) then Over(Refused(401))
    else if f.length.None? || f.chunked then Over(Refused(411))
    else if f.length.value > MAX_CU_BODY then Over(Refused(413))
    else Wants(path, f.length.value)
  }

  function VerdictOn(head: seq<Byte>, cfg: Config): Verdict {
    match cfg.utf8(head)
    case None => Over(Dropped)
    case Some(text) =>
      var lines := Lines(text);
      var words := Split(lines[0], ' ');
      if |words| < 2 then Over(Dropped) else Judged(words[1], FieldsOf(lines[1..]), cfg)
  }

  function BodyOutcome(path: string, body: seq<Byte>, cfg: Config): Outcome {
    if cfg.utf8(body).Some? then Accepted(path, body) else Refused(400)
  }

  /** The answer to a head that wants `length` bytes of body, with `after` following it. */
  function BodyRead(path: string, length: nat, after: seq<Byte>, cfg: Config): Outcome {
    if length > |after| then Dropped else BodyOutcome(path, after[..length], cfg)
  }

  /** The answer to the bytes `all`, whose head ends at `end`. */
  function Answer(all: seq<Byte>, end: nat, cfg: Config): Outcome
    requires end + 4 <= |all|
  {
    match VerdictOn(all[..end], cfg)
    case Over(outcome) => outcome
    case Wants(path, length) => BodyRead(path, length, all[end + 4..], cfg)
  }

  datatype Got = Data(bytes: seq<Byte>) | Eof | Broken

  class Connection {
    /** What is still to come of the request. */
    var rest: seq<Byte>

    /** Any piece of what is coming, of at most `max` bytes; the end once nothing is; or a failure. */
    method Read(max: nat) returns (got: Got)
      requires max > 0
      modifies this
      ensures got.Data? ==> got.bytes != [] && |got.bytes| <= max && old(rest) == got.bytes + rest
      ensures got.Eof? ==> old(rest) == [] == rest
      ensures got.Broken? ==> rest == old(rest)
    {
      if * {
        return Broken;
      }
      if rest == [] {
        return Eof;
      }
      var n: nat :| 0 < n <= |rest| && n <= max;
      got := Data(rest[..n]);
      rest := rest[n..];
    }

    /** `read_exact`: all of `n` bytes, or None where the stream ends or fails first. */
    method ReadExact(n: nat) returns (bytes: Option<seq<Byte>>, broken: bool)
      modifies this
      ensures bytes.Some? ==> |bytes.value| == n && old(rest) == bytes.value + rest
      ensures bytes.None? ==> broken || |old(rest)| < n
    {
      var have: seq<Byte> := [];
      broken := false;
      while |have| < n
        invariant |have| <= n && old(rest) == have + rest
        decreases n - |have|
      {
        var got := Read(n - |have|);
        match got
        case Data(more) => have := have + more;
        case Eof => return None, false;
        case Broken => return None, true;
      }
      bytes := Some(have);
    }

    /** The search for the head; None where a read fails. `chunks` are the pieces it received. */
    method ReadHead() returns (head: Option<Head>, ghost chunks: seq<seq<Byte>>)
      modifies this
      ensures Pieces(chunks) && old(rest) == Flat(chunks) + rest
      ensures head.Some? ==> head.value == HeadRead([], chunks) && (head.value.Ended? ==> rest == [])
      ensures head.Some? ==> head.value.buf == Flat(chunks)
    {
      var buf: seq<Byte> := [];
      chunks := [];
      while true
        invariant Pieces(chunks) && buf == Flat(chunks) && old(rest) == buf + rest
        invariant HeadRead([], chunks) == HeadRead(buf, [])
        decreases |rest|
      {
        var end := FirstEnd(buf);
        if end.Some? {
          return Some(Found(buf, end.value)), chunks;
        }
        if |buf| > MAX_CU_HEAD {
          return Some(TooLarge(buf)), chunks;
        }
        var got := Read(CHUNK);
        match got
        case Data(more) =>
          PieceRead(buf, chunks, more);
          Regroup(buf, more, rest);
          buf := buf + more;
          chunks := chunks + [more];
        case Eof => return Some(Ended(buf)), chunks;
        case Broken => return None, chunks;
      }
    }

    static method ParseFields(lines: seq<string>) returns (f: Fields)
      ensures f == FieldsOf(lines)
    {
      f := Fields(None, Some(0), false);
      for i := 0 to |lines|
        invariant f == FieldsOf(lines[..i])
      {
        assert lines[..i + 1][..i] == lines[..i];
        f := WithLine(f, lines[i]);
      }
      assert lines[..|lines|] == lines;
    }

    static method Judge(head: seq<Byte>, cfg: Config) returns (v: Verdict)
      ensures v == VerdictOn(head, cfg)
    {
      var text := cfg.utf8(head);
      if text.None? {
        return Over(Dropped);
      }
      var lines := Lines(text.value);
      var words := Split(lines[0], ' ');
      if |words| < 2 {
        return Over(Dropped);
      }
      var f := ParseFields(lines[1..]);
      v := Judged(words[1], f, cfg);
    }

    /** The body: `length` bytes of what came with the head and what follows it. */
    method ReadBody(path: string, length: nat, have: seq<Byte>, cfg: Config) returns (outcome: Outcome, ghost broken: bool)
      modifies this
      ensures broken ==> outcome == Dropped
      ensures !broken ==> outcome == BodyRead(path, length, have + old(rest), cfg)
    {
      broken := false;
      ghost var all := have + rest;
      var body := have;
      if |body| >= length {
        body := body[..length];
      } else {
        var more;
        more, broken := ReadExact(length - |body|);
        if more.None? {
          return Dropped, broken;
        }
        body := body + more.value;
        broken := false;
        assert all == body + rest;
      }
      assert body == all[..length];
      outcome := BodyOutcome(path, body, cfg);
    }

    /** The answer once the head is found in `buf`, the rest of the request still to come. */
    method AnswerFound(buf: seq<Byte>, end: nat, cfg: Config) returns (outcome: Outcome, ghost broken: bool)
      requires end + 4 <= |buf|
      modifies this
      ensures broken ==> outcome == Dropped
      ensures !broken ==> outcome == Answer(buf + old(rest), end, cfg)
    {
      broken := false;
      BodyFollowsHead(buf, rest, end);
      var verdict := Judge(buf[..end], cfg);
      match verdict
      case Over(answer) => outcome := answer;
      case Wants(path, length) => outcome, broken := ReadBody(path, length, buf[end + 4..], cfg);
    }

    /**
     One request. Whatever pieces it comes in, unless a read fails the outcome depends on the
     bytes alone where the head ends within the limit and its terminator, or beyond the limit and
     a piece more, or nowhere; `broken` says that a read failed. An accepted request has the body it
     announced.
     */
    method ReadCuRequest(cfg: Config) returns (outcome: Outcome, ghost broken: bool)
      modifies this
      ensures broken ==> outcome == Dropped
      ensures !broken ==> outcome in Outcomes(old(rest), cfg)
      ensures outcome.Accepted? ==> Announces(old(rest), outcome.path, outcome.body, cfg)
    {
      ghost var all := rest;
      outcome, broken := ReadAndAnswer(cfg);
      if outcome.Accepted? {
        AcceptedAsAnnounced(all, outcome, cfg);
      }
    }

    method ReadAndAnswer(cfg: Config) returns (outcome: Outcome, ghost broken: bool)
      modifies this
      ensures broken ==> outcome == Dropped
      ensures !broken ==> outcome in Outcomes(old(rest), cfg)
    {
      broken := false;
      ghost var chunks;
      var head;
      head, chunks := ReadHead();
      if head.None? {
        return Dropped, true;
      }
      HeadLeadsTo(chunks, rest, cfg);
      match head.value
      case Ended(_) => outcome := Dropped;
      case TooLarge(_) => outcome := Refused(431);
      case Found(buf, end) => outcome, broken := AnswerFound(buf, end, cfg);
    }
  }

  function Flat(chunks: seq<seq<Byte>>): seq<Byte> {
    if chunks == [] then [] else Flat(chunks[..|chunks| - 1]) + chunks[|chunks| - 1]
  }

  /** Pieces as a read delivers them. */
  predicate Pieces(chunks: seq<seq<Byte>>) {
    forall c :: c in chunks ==> 0 < |c| <= CHUNK
  }

  /**
   The outcomes the bytes `all` can have: one, except where the head ends in the last piece that
   may still be read past the limit.
   */
  function Outcomes(all: seq<Byte>, cfg: Config): set<Outcome> {
    match FirstEnd(all)
    case None => if |all| > MAX_CU_HEAD then {Refused(431)} else {Dropped}
    case Some(end) =>
      if end + 4 <= MAX_CU_HEAD + 1 then {Answer(all, end, cfg)}
      else if end + 4 <= MAX_CU_HEAD + CHUNK then {Answer(all, end, cfg), Refused(431)}
      else {Refused(431)}
  }

  lemma {:induction false} FlatSnoc(chunks: seq<seq<Byte>>, chunk: seq<Byte>)
    ensures Flat(chunks + [chunk]) == Flat(chunks) + chunk
  {
    assert (chunks + [chunk])[..|chunks|] == chunks;
  }

  lemma {:induction false} FlatCons(chunk: seq<Byte>, chunks: seq<seq<Byte>>)
    ensures Flat([chunk] + chunks) == chunk + Flat(chunks)
  {
    if chunks == [] {
      assert [chunk] + chunks == [chunk];
      assert [chunk][..0] == [];
    } else {
      var front := chunks[..|chunks| - 1];
      FlatCons(chunk, front);
      assert ([chunk] + chunks)[..|chunks|] == [chunk] + front;
    }
  }

  /** One piece more, where the pieces so far left the search undecided. */
  lemma {:induction false} ReadOn(buf: seq<Byte>, chunks: seq<seq<Byte>>, more: seq<Byte>)
    requires HeadRead(buf, chunks).Ended?
    ensures HeadRead(buf, chunks + [more]) == HeadRead(HeadRead(buf, chunks).buf + more, [])
    decreases |chunks|
  {
    var longer := chunks + [more];
    if chunks == [] {
      assert longer[0] == more && longer[1..] == [];
    } else {
      assert longer[0] == chunks[0] && longer[1..] == chunks[1..] + [more];
      ReadOn(buf + chunks[0], chunks[1..], more);
    }
  }

  lemma PieceRead(buf: seq<Byte>, chunks: seq<seq<Byte>>, more: seq<Byte>)
    requires Pieces(chunks) && buf == Flat(chunks) && HeadRead([], chunks) == HeadRead(buf, [])
    requires FirstEnd(buf).None? && |buf| <= MAX_CU_HEAD && 0 < |more| <= CHUNK
    ensures Pieces(chunks + [more]) && buf + more == Flat(chunks + [more])
    ensures HeadRead([], chunks + [more]) == HeadRead(buf + more, [])
  {
    ReadOn([], chunks, more);
    FlatSnoc(chunks, more);
  }

  lemma Regroup(a: seq<Byte>, b: seq<Byte>, c: seq<Byte>)
    ensures a + (b + c) == a + b + c
  {
  }

  /** A prefix shows the same first end, or none that fits it. */
  lemma {:induction false} FirstEndOfPrefix(buf: seq<Byte>, all: seq<Byte>)
    requires buf <= all
    ensures FirstEnd(buf).Some? ==> FirstEnd(all) == FirstEnd(buf)
    ensures FirstEnd(buf).None? ==> FirstEnd(all).None? || FirstEnd(all).value + 4 > |buf|
  {
    if |buf| >= 4 {
      assert buf[..4] == all[..4];
      if buf[..4] != HEAD_END {
        assert buf[1..] <= all[1..];
        FirstEndOfPrefix(buf[1..], all[1..]);
      }
    }
  }

  /**
   The search over any pieces: what it finds is the request's own first end, and it gives up only
   past the limit. Its buffer never holds more than the limit and one piece.
   */
  lemma {:induction false} HeadDecided(buf: seq<Byte>, chunks: seq<seq<Byte>>, all: seq<Byte>)
    requires Pieces(chunks) && buf + Flat(chunks) <= all && |buf| <= MAX_CU_HEAD + CHUNK
    ensures var head := HeadRead(buf, chunks);
            && head.buf <= all && |head.buf| <= MAX_CU_HEAD + CHUNK
            && match head
               case Found(b, end) => FirstEnd(all) == Some(end) && end + 4 <= |b|
               case TooLarge(b) => |b| > MAX_CU_HEAD && (FirstEnd(all).Some? ==> FirstEnd(all).value + 4 > |b|)
               case Ended(b) => b == buf + Flat(chunks) && |b| <= MAX_CU_HEAD && (FirstEnd(all).Some? ==> FirstEnd(all).value + 4 > |b|)
    decreases |chunks|
  {
    assert buf <= all by {
      assert (buf + Flat(chunks))[..|buf|] == buf;
    }
    FirstEndOfPrefix(buf, all);
    if FirstEnd(buf).None? && |buf| <= MAX_CU_HEAD && chunks != [] {
      var tail := chunks[1..];
      assert chunks == [chunks[0]] + tail;
      FlatCons(chunks[0], tail);
      assert buf + Flat(chunks) == buf + chunks[0] + Flat(tail);
      HeadDecided(buf + chunks[0], tail, all);
    }
  }

  lemma BodyFollowsHead(buf: seq<Byte>, rest: seq<Byte>, end: nat)
    requires end + 4 <= |buf|
    ensures (buf + rest)[..end] == buf[..end]
    ensures (buf + rest)[end + 4..] == buf[end + 4..] + rest
  {
  }

  /** What each end of the search over the first pieces of a request comes to. */
  lemma HeadLeadsTo(chunks: seq<seq<Byte>>, rest: seq<Byte>, cfg: Config)
    requires Pieces(chunks)
    ensures match HeadRead([], chunks)
            case Ended(_) => rest == [] ==> Dropped in Outcomes(Flat(chunks) + rest, cfg)
            case TooLarge(_) => Refused(431) in Outcomes(Flat(chunks) + rest, cfg)
            case Found(buf, end) =>
              && end + 4 <= |buf|
              && (buf == Flat(chunks) ==> Answer(buf + rest, end, cfg) in Outcomes(Flat(chunks) + rest, cfg))
  {
    assert [] + Flat(chunks) == Flat(chunks);
    HeadDecided([], chunks, Flat(chunks) + rest);
  }

  /** A head that ends within the limit and one byte is found however it is cut up. */
  lemma HeadWithinLimitIsFound(chunks: seq<seq<Byte>>, end: nat)
    requires Pieces(chunks) && FirstEnd(Flat(chunks)) == Some(end) && end + 4 <= MAX_CU_HEAD + 1
    ensures HeadRead([], chunks).Found? && HeadRead([], chunks).end == end
  {
    assert [] + Flat(chunks) == Flat(chunks);
    HeadDecided([], chunks, Flat(chunks));
  }

  /** One that ends beyond the limit and a piece is refused however it is cut up. */
  lemma HeadBeyondLimitIsRefused(chunks: seq<seq<Byte>>, end: nat)
    requires Pieces(chunks) && FirstEnd(Flat(chunks)) == Some(end) && end + 4 > MAX_CU_HEAD + CHUNK
    ensures HeadRead([], chunks).TooLarge?
  {
    assert [] + Flat(chunks) == Flat(chunks);
    HeadDecided([], chunks, Flat(chunks));
  }

  /** The bytes cut into pieces of `n`. */
  function CutBy(s: seq<Byte>, n: nat): (chunks: seq<seq<Byte>>)
    requires 0 < n <= CHUNK
    ensures Pieces(chunks)
    decreases |s|
  {
    if s == [] then []
    else if |s| <= n then [s]
    else [s[..n]] + CutBy(s[n..], n)
  }

  lemma {:induction false} CutByJoins(s: seq<Byte>, n: nat)
    requires 0 < n <= CHUNK
    ensures Flat(CutBy(s, n)) == s
    decreases |s|
  {
    if s != [] {
      if |s| <= n {
        assert [s][..0] == [];
        assert Flat([s]) == [] + s;
      } else {
        CutByJoins(s[n..], n);
        FlatCons(s[..n], CutBy(s[n..], n));
        assert s == s[..n] + s[n..];
      }
    }
  }

  /** The first piece of a cut, and the rest of it. */
  lemma CutStep(all: seq<Byte>, k: nat, n: nat)
    requires 0 < n <= CHUNK && k < |all|
    ensures var chunks, next := CutBy(all[k..], n), if |all| - k <= n then |all| else k + n;
      chunks != [] && chunks[1..] == CutBy(all[next..], n) && all[..k] + chunks[0] == all[..next]
  {
    if |all| - k <= n {
      assert all[k..] == all[k..|all|];
    } else {
      assert all[k..][n..] == all[k + n..];
    }
  }

  lemma SearchGoesOn(buf: seq<Byte>, chunks: seq<seq<Byte>>)
    requires FirstEnd(buf).None? && |buf| <= MAX_CU_HEAD && chunks != []
    ensures HeadRead(buf, chunks) == HeadRead(buf + chunks[0], chunks[1..])
  {
  }

  lemma SearchEnds(buf: seq<Byte>, chunks: seq<seq<Byte>>)
    requires FirstEnd(buf).Some?
    ensures HeadRead(buf, chunks).Found?
  {
  }

  lemma NextWhole(k: nat)
    ensures k % CHUNK == 0 ==> (k + CHUNK) % CHUNK == 0
  {
  }

  lemma {:induction false} SmallPiecesRefused(all: seq<Byte>, end: nat, k: nat)
    requires FirstEnd(all) == Some(end) && end + 4 > MAX_CU_HEAD + 1
    requires k <= MAX_CU_HEAD + 1
    ensures HeadRead(all[..k], CutBy(all[k..], 1)).TooLarge?
    decreases MAX_CU_HEAD + 1 - k
  {
    FirstEndOfPrefix(all[..k], all);
    assert FirstEnd(all[..k]).None?;
    if k <= MAX_CU_HEAD {
      CutStep(all, k, 1);
      SmallPiecesRefused(all, end, k + 1);
      SearchGoesOn(all[..k], CutBy(all[k..], 1));
    } else {
      GivesUp(all[..k], CutBy(all[k..], 1));
    }
  }

  lemma GivesUp(buf: seq<Byte>, chunks: seq<seq<Byte>>)
    requires FirstEnd(buf).None? && |buf| > MAX_CU_HEAD
    ensures HeadRead(buf, chunks).TooLarge?
  {
  }

  lemma {:induction false} BigPiecesFound(all: seq<Byte>, end: nat, k: nat)
    requires FirstEnd(all) == Some(end) && end + 4 <= MAX_CU_HEAD + CHUNK
    requires k <= |all| && (k % CHUNK == 0 || k == |all|)
    ensures HeadRead(all[..k], CutBy(all[k..], CHUNK)).Found?
    decreases |all| - k
  {
    if FirstEnd(all[..k]).None? {
      WholePiecesBelow(all, end, k);
      var next := if |all| - k <= CHUNK then |all| else k + CHUNK;
      NextWhole(k);
      CutStep(all, k, CHUNK);
      BigPiecesFound(all, end, next);
      SearchGoesOn(all[..k], CutBy(all[k..], CHUNK));
    } else {
      SearchEnds(all[..k], CutBy(all[k..], CHUNK));
    }
  }

  /** Whole pieces that do not hold the head yet are within the limit. */
  lemma WholePiecesBelow(all: seq<Byte>, end: nat, k: nat)
    requires FirstEnd(all) == Some(end) && end + 4 <= MAX_CU_HEAD + CHUNK
    requires k <= |all| && (k % CHUNK == 0 || k == |all|) && FirstEnd(all[..k]).None?
    ensures k < |all| && k <= MAX_CU_HEAD
  {
    FirstEndOfPrefix(all[..k], all);
    assert k < end + 4 <= |all|;
    WholePieces(k);
  }

  lemma WholePieces(k: nat)
    requires k % CHUNK == 0 && k < MAX_CU_HEAD + CHUNK
    ensures k <= MAX_CU_HEAD
  {
  }

  /**
   In between it depends on the pieces, for every such request: whole pieces find the head, and
   single bytes run into the limit first. So the limits of the two lemmas above are exact.
   */
  lemma {:induction false} HeadInBetweenDepends(all: seq<Byte>, end: nat) returns (found: seq<seq<Byte>>, refused: seq<seq<Byte>>)
    requires FirstEnd(all) == Some(end) && MAX_CU_HEAD + 1 < end + 4 <= MAX_CU_HEAD + CHUNK
    ensures Pieces(found) && Flat(found) == all && HeadRead([], found).Found?
    ensures Pieces(refused) && Flat(refused) == all && HeadRead([], refused).TooLarge?
  {
    assert all[..0] == [] && all[0..] == all;
    found, refused := CutBy(all, CHUNK), CutBy(all, 1);
    CutByJoins(all, CHUNK);
    CutByJoins(all, 1);
    BigPiecesFound(all, end, 0);
    SmallPiecesRefused(all, end, 0);
  }

  /**
   The request `all` announces `body`: its credentials are good, it is not chunked, and `body` is
   the bytes straight after its head, as many as its Content-Length says.
   */
  predicate Announces(all: seq<Byte>, path: string, body: seq<Byte>, cfg: Config) {
    var end := FirstEnd(all);
    && end.Some?
    && var text := cfg.utf8(all[..end.value]);
       && text.Some?
       && var f := FieldsOf(Lines(text.value)[1..]);
          var words := Split(Lines(text.value)[0], ' ');
          && cfg.authorized(f.authorization) && !f.chunked && f.length == Some(|body|) && |body| <= MAX_CU_BODY
          && |words| > 1 && path == words[1]
          && end.value + 4 + |body| <= |all| && body == all[end.value + 4..end.value + 4 + |body|]
          && cfg.utf8(body).Some?
  }

  /** An accepted request has exactly the body its Content-Length announced, straight after its head. */
  lemma {:induction false} AcceptedAsAnnounced(all: seq<Byte>, outcome: Outcome, cfg: Config)
    requires outcome in Outcomes(all, cfg) && outcome.Accepted?
    ensures Announces(all, outcome.path, outcome.body, cfg)
  {
    var end := FirstEnd(all).value;
    assert outcome == Answer(all, end, cfg);
    AnsweredAsAnnounced(all, end, cfg);
  }

  lemma AnsweredAsAnnounced(all: seq<Byte>, end: nat, cfg: Config)
    requires FirstEnd(all) == Some(end) && Answer(all, end, cfg).Accepted?
    ensures Announces(all, Answer(all, end, cfg).path, Answer(all, end, cfg).body, cfg)
  {
    var verdict := VerdictOn(all[..end], cfg);
    assert verdict.Wants? && |all[end + 4..]| >= verdict.length;
    assert all[end + 4..][..verdict.length] == all[end + 4..end + 4 + verdict.length];
  }
}
