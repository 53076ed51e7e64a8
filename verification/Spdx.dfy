/**
 SPDX license expressions: the grammar the license check's parser accepts, the trees it reads, and
 what they are worth.

 `ParseOr` and the functions below it are the parser as a function of the tokens left, building
 the tree it read. The class `Parser` is the code, which moves one shared position and computes
 the rank as it goes. Trees keep the spelling of their keywords and their parentheses, so that a
 token list and a tree determine each other.
 */
module Spdx {
  import opened Options

  type Rank = r: nat | r <= 3

  const PERMISSIVE: Rank := 0
  const WEAK: Rank := 1
  const COPYLEFT: Rank := 2
  const UNKNOWN: Rank := 3

  /** What the check knows of single identifiers. */
  datatype Table = Table(rank: string -> Rank, links: string -> bool)

  datatype Kind = Open | Close | KwAnd | KwOr | KwWith | Plain

  /** `str.upper`, as far as a keyword can come of it: the dotless i is the one letter beyond ASCII. */
  function Upper(s: string): string {
    seq(|s|, i requires 0 <= i < |s| =>
      if 'a' <= s[i] <= 'z' then (s[i] as int - 32) as char
      else if s[i] == '\U{0131}' then 'I' else s[i])
  }

  function KindOf(token: string): Kind {
    if token == "(" then Open
    else if token == ")" then Close
    else if Upper(token) == "AND" then KwAnd
    else if Upper(token) == "OR" then KwOr
    else if Upper(token) == "WITH" then KwWith
    else Plain
  }

  /** A parse tree; `kw` is the keyword as spelled. */
  datatype Expr =
    | Id(word: string)
    | Group(inner: Expr)
    | With(base: Expr, kw: string, exception: string)
    | And(left: Expr, kw: string, right: Expr)
    | Or(left: Expr, kw: string, right: Expr)

  function Print(e: Expr): (tokens: seq<string>)
    ensures tokens != []
  {
    match e
    case Id(word) => [word]
    case Group(inner) => ["("] + Print(inner) + [")"]
    case With(base, kw, exception) => Print(base) + [kw, exception]
    case And(left, kw, right) => Print(left) + [kw] + Print(right)
    case Or(left, kw, right) => Print(left) + [kw] + Print(right)
  }

  /**
   Whether the grammar allows `e` at `level`: 0 where OR may stand bare, 1 where AND may, 2 where
   WITH may, 3 for an identifier or a group. OR and AND chain to the left.
   */
  predicate Fits(e: Expr, level: nat) {
    match e
    case Id(word) => KindOf(word) == Plain
    case Group(inner) => Fits(inner, 0)
    case With(base, kw, _) => level <= 2 && KindOf(kw) == KwWith && Fits(base, 3)
    case And(left, kw, right) => level <= 1 && KindOf(kw) == KwAnd && Fits(left, 1) && Fits(right, 2)
    case Or(left, kw, right) => level <= 0 && KindOf(kw) == KwOr && Fits(left, 0) && Fits(right, 1)
  }

  function Lifted(rank: Rank, exception: string, t: Table): Rank {
    if t.links(exception) && (rank == WEAK || rank == COPYLEFT) then PERMISSIVE else rank
  }

  function Min(a: Rank, b: Rank): Rank { if b < a then b else a }

  function Max(a: Rank, b: Rank): Rank { if b > a then b else a }

  /** A token's identifier: a `+` suffix is the legacy spelling of `-or-later`. */
  function Ident(token: string): string {
    if token != "" && token[|token| - 1] == '+' then token[..|token| - 1] + "-or-later" else token
  }

  function Eval(e: Expr, t: Table): Rank {
    match e
    case Id(word) => t.rank(Ident(word))
    case Group(inner) => Eval(inner, t)
    case With(base, _, exception) => Lifted(Eval(base, t), exception, t)
    case And(left, _, right) => Max(Eval(left, t), Eval(right, t))
    case Or(left, _, right) => Min(Eval(left, t), Eval(right, t))
  }

  datatype Parsed = Fail | Done(tree: Expr, rest: seq<string>)

  predicate StartsWith(tokens: seq<string>, kind: Kind) {
    tokens != [] && KindOf(tokens[0]) == kind
  }

  function ParseOr(tokens: seq<string>): (p: Parsed)
    ensures p.Done? ==> |p.rest| < |tokens|
    decreases |tokens|, 4
  {
    var p := ParseAnd(tokens);
    if p.Fail? then Fail else OrLoop(p.tree, p.rest)
  }

  function OrLoop(soFar: Expr, tokens: seq<string>): (p: Parsed)
    ensures p.Done? ==> |p.rest| <= |tokens|
    decreases |tokens|, 5
  {
    if !StartsWith(tokens, KwOr) then Done(soFar, tokens)
    else
      var p := ParseAnd(tokens[1..]);
      if p.Fail? then Fail else OrLoop(Or(soFar, tokens[0], p.tree), p.rest)
  }

  function ParseAnd(tokens: seq<string>): (p: Parsed)
    ensures p.Done? ==> |p.rest| < |tokens|
    decreases |tokens|, 2
  {
    var p := ParseWith(tokens);
    if p.Fail? then Fail else AndLoop(p.tree, p.rest)
  }

  function AndLoop(soFar: Expr, tokens: seq<string>): (p: Parsed)
    ensures p.Done? ==> |p.rest| <= |tokens|
    decreases |tokens|, 3
  {
    if !StartsWith(tokens, KwAnd) then Done(soFar, tokens)
    else
      var p := ParseWith(tokens[1..]);
      if p.Fail? then Fail else AndLoop(And(soFar, tokens[0], p.tree), p.rest)
  }

  /** Whatever token follows WITH is the exception. */
  function ParseWith(tokens: seq<string>): (p: Parsed)
    ensures p.Done? ==> |p.rest| < |tokens|
    decreases |tokens|, 1
  {
    var p := ParseAtom(tokens);
    if p.Fail? || !StartsWith(p.rest, KwWith) then p
    else if |p.rest| == 1 then Fail
    else Done(With(p.tree, p.rest[0], p.rest[1]), p.rest[2..])
  }

  function ParseAtom(tokens: seq<string>): (p: Parsed)
    ensures p.Done? ==> |p.rest| < |tokens|
    decreases |tokens|, 0
  {
    if tokens == [] then Fail
    else
      match KindOf(tokens[0])
      case Open =>
        var p := ParseOr(tokens[1..]);
        if p.Fail? || !StartsWith(p.rest, Close) then Fail else Done(Group(p.tree), p.rest[1..])
      case Plain => Done(Id(tokens[0]), tokens[1..])
      case _ => Fail
  }

  /** The whole token list, or nothing. */
  function Parse(tokens: seq<string>): Option<Expr> {
    var p := ParseOr(tokens);
    if p.Fail? || p.rest != [] then None else Some(p.tree)
  }

  class Parser {
    const tokens: seq<string>
    const table: Table
    var pos: nat

    constructor (tokens: seq<string>, table: Table)
      ensures this.tokens == tokens && this.table == table && pos == 0
    {
      this.tokens, this.table, pos := tokens, table, 0;
    }

    /** What a parsing method does where the function reads `p` from the tokens left. */
    ghost predicate Agrees(p: Parsed, rank: Option<Rank>)
      reads this
    {
      && (p.Fail? <==> rank.None?)
      && (p.Done? ==> pos <= |tokens| && tokens[pos..] == p.rest && rank == Some(Eval(p.tree, table)))
    }

    predicate PeekIs(kind: Kind)
      requires pos <= |tokens|
      reads this
      ensures PeekIs(kind) == StartsWith(tokens[pos..], kind)
    {
      pos < |tokens| && KindOf(tokens[pos]) == kind
    }

    method ParseOrAt() returns (rank: Option<Rank>)
      requires pos <= |tokens|
      modifies this`pos
      ensures Agrees(ParseOr(tokens[old(pos)..]), rank)
      decreases |tokens| - pos, 5
    {
      ghost var start := tokens[pos..];
      rank := ParseAndAt();
      if rank.Some? {
        rank := OrLoopAt(rank.value, ParseAnd(start).tree);
      }
    }

    /** The while loop of its method, from `first` on, the rank of the tree `read`. */
    method OrLoopAt(first: Rank, ghost read: Expr) returns (rank: Option<Rank>)
      requires pos <= |tokens| && first == Eval(read, table)
      modifies this`pos
      ensures Agrees(OrLoop(read, tokens[old(pos)..]), rank)
      decreases |tokens| - pos, 4
    {
      ghost var start := tokens[pos..];
      ghost var soFar := read;
      rank := Some(first);
      while PeekIs(KwOr)
        invariant pos <= |tokens| && |tokens[pos..]| <= |start|
        invariant rank == Some(Eval(soFar, table))
        invariant OrLoop(read, start) == OrLoop(soFar, tokens[pos..])
        decreases |tokens| - pos
      {
        ghost var kw := tokens[pos];
        assert tokens[pos..][1..] == tokens[pos + 1..];
        pos := pos + 1;
        ghost var right := ParseAnd(tokens[pos..]);
        var next := ParseAndAt();
        if next.None? {
          return None;
        }
        soFar := Or(soFar, kw, right.tree);
        rank := Some(Min(rank.value, next.value));
      }
    }

    method ParseAndAt() returns (rank: Option<Rank>)
      requires pos <= |tokens|
      modifies this`pos
      ensures Agrees(ParseAnd(tokens[old(pos)..]), rank)
      decreases |tokens| - pos, 3
    {
      ghost var start := tokens[pos..];
      rank := ParseWithAt();
      if rank.Some? {
        rank := AndLoopAt(rank.value, ParseWith(start).tree);
      }
    }

    /** The while loop of its method, from `first` on, the rank of the tree `read`. */
    method AndLoopAt(first: Rank, ghost read: Expr) returns (rank: Option<Rank>)
      requires pos <= |tokens| && first == Eval(read, table)
      modifies this`pos
      ensures Agrees(AndLoop(read, tokens[old(pos)..]), rank)
      decreases |tokens| - pos, 2
    {
      ghost var start := tokens[pos..];
      ghost var soFar := read;
      rank := Some(first);
      while PeekIs(KwAnd)
        invariant pos <= |tokens| && |tokens[pos..]| <= |start|
        invariant rank == Some(Eval(soFar, table))
        invariant AndLoop(read, start) == AndLoop(soFar, tokens[pos..])
        decreases |tokens| - pos
      {
        ghost var kw := tokens[pos];
        assert tokens[pos..][1..] == tokens[pos + 1..];
        pos := pos + 1;
        ghost var right := ParseWith(tokens[pos..]);
        var next := ParseWithAt();
        if next.None? {
          return None;
        }
        soFar := And(soFar, kw, right.tree);
        rank := Some(Max(rank.value, next.value));
      }
    }

    method ParseWithAt() returns (rank: Option<Rank>)
      requires pos <= |tokens|
      modifies this`pos
      ensures Agrees(ParseWith(tokens[old(pos)..]), rank)
      decreases |tokens| - pos, 1
    {
      rank := ParseAtomAt();
      if rank.None? {
        return;
      }
      if PeekIs(KwWith) {
        ghost var rest := tokens[pos..];
        pos := pos + 1;
        if pos == |tokens| {
          return None;
        }
        var exception := tokens[pos];
        pos := pos + 1;
        assert rest[2..] == tokens[pos..];
        if table.links(exception) && (rank.value == WEAK || rank.value == COPYLEFT) {
          rank := Some(PERMISSIVE);
        }
      }
    }

    method ParseAtomAt() returns (rank: Option<Rank>)
      requires pos <= |tokens|
      modifies this`pos
      ensures Agrees(ParseAtom(tokens[old(pos)..]), rank)
      decreases |tokens| - pos, 0
    {
      if pos == |tokens| {
        return None;
      }
      var token := tokens[pos];
      ghost var start := tokens[pos..];
      pos := pos + 1;
      assert start[1..] == tokens[pos..];
      if token == "(" {
        rank := ParseOrAt();
        if rank.None? {
          return;
        }
        if !PeekIs(Close) {
          return None;
        }
        assert tokens[pos..][1..] == tokens[pos + 1..];
        pos := pos + 1;
        return;
      }
      if Upper(token) in {"AND", "OR", "WITH"} || token == ")" {
        return None;
      }
      if token != "" && token[|token| - 1] == '+' {
        token := token[..|token| - 1] + "-or-later";
      }
      rank := Some(table.rank(token));
    }

    /** The rank of all the tokens; None where the source raises. */
    method Classify() returns (rank: Option<Rank>)
      requires pos == 0
      modifies this`pos
      ensures rank == match Parse(tokens) case None => None case Some(tree) => Some(Eval(tree, table))
    {
      if tokens == [] {
        return None;
      }
      assert tokens[0..] == tokens;
      rank := ParseOrAt();
      if rank.Some? && pos != |tokens| {
        rank := None;
      }
    }
  }

  /** Soundness: what a parsing function reads is a tree of its level that prints to the tokens read. */
  lemma {:induction false} OrSound(tokens: seq<string>)
    ensures var p := ParseOr(tokens); p.Done? ==> Fits(p.tree, 0) && Print(p.tree) + p.rest == tokens
    decreases |tokens|, 4
  {
    AndSound(tokens);
    var p := ParseAnd(tokens);
    if p.Done? {
      FitsBelow(p.tree, 1, 0);
      OrLoopSound(p.tree, p.rest);
    }
  }

  lemma Regroup(before: seq<string>, tokens: seq<string>, operand: seq<string>, rest: seq<string>)
    requires tokens != [] && operand + rest == tokens[1..]
    ensures before + [tokens[0]] + operand + rest == before + tokens
  {
    assert tokens == [tokens[0]] + (operand + rest);
  }

  lemma {:induction false} OrLoopSound(soFar: Expr, tokens: seq<string>)
    requires Fits(soFar, 0)
    ensures var p := OrLoop(soFar, tokens); p.Done? ==> Fits(p.tree, 0) && Print(p.tree) + p.rest == Print(soFar) + tokens
    decreases |tokens|, 5
  {
    if StartsWith(tokens, KwOr) {
      AndSound(tokens[1..]);
      var p := ParseAnd(tokens[1..]);
      if p.Done? {
        OrLoopSound(Or(soFar, tokens[0], p.tree), p.rest);
        Regroup(Print(soFar), tokens, Print(p.tree), p.rest);
      }
    }
  }

  lemma {:induction false} AndSound(tokens: seq<string>)
    ensures var p := ParseAnd(tokens); p.Done? ==> Fits(p.tree, 1) && Print(p.tree) + p.rest == tokens
    decreases |tokens|, 2
  {
    WithSound(tokens);
    var p := ParseWith(tokens);
    if p.Done? {
      FitsBelow(p.tree, 2, 1);
      AndLoopSound(p.tree, p.rest);
    }
  }

  lemma {:induction false} AndLoopSound(soFar: Expr, tokens: seq<string>)
    requires Fits(soFar, 1)
    ensures var p := AndLoop(soFar, tokens); p.Done? ==> Fits(p.tree, 1) && Print(p.tree) + p.rest == Print(soFar) + tokens
    decreases |tokens|, 3
  {
    if StartsWith(tokens, KwAnd) {
      WithSound(tokens[1..]);
      var p := ParseWith(tokens[1..]);
      if p.Done? {
        AndLoopSound(And(soFar, tokens[0], p.tree), p.rest);
        Regroup(Print(soFar), tokens, Print(p.tree), p.rest);
      }
    }
  }

  lemma {:induction false} WithSound(tokens: seq<string>)
    ensures var p := ParseWith(tokens); p.Done? ==> Fits(p.tree, 2) && Print(p.tree) + p.rest == tokens
    decreases |tokens|, 1
  {
    AtomSound(tokens);
    var p := ParseAtom(tokens);
    if p.Done? {
      FitsBelow(p.tree, 3, 2);
      if StartsWith(p.rest, KwWith) && |p.rest| > 1 {
        assert p.rest == [p.rest[0], p.rest[1]] + p.rest[2..];
      }
    }
  }

  lemma {:induction false} AtomSound(tokens: seq<string>)
    ensures var p := ParseAtom(tokens); p.Done? ==> Fits(p.tree, 3) && Print(p.tree) + p.rest == tokens
    decreases |tokens|, 0
  {
    if tokens != [] && KindOf(tokens[0]) == Open {
      OrSound(tokens[1..]);
      var p := ParseOr(tokens[1..]);
      if p.Done? && StartsWith(p.rest, Close) {
        assert tokens == ["("] + (Print(p.tree) + ([")"] + p.rest[1..]));
      }
    }
  }

  /** A tree that fits a tighter level fits a looser one. */
  lemma FitsBelow(e: Expr, high: nat, low: nat)
    requires Fits(e, high) && low <= high
    ensures Fits(e, low)
  {
    match e
    case And(left, _, _) =>
    case _ =>
  }

  /**
   Completeness: a tree that fits OR's level is read back whole, and what follows it is left to
   the loop, unless an AND or a WITH follows, which would belong to it.
   */
  lemma {:induction false} OrComplete(e: Expr, rest: seq<string>)
    requires Fits(e, 0) && !StartsWith(rest, KwAnd) && !StartsWith(rest, KwWith)
    ensures ParseOr(Print(e) + rest) == OrLoop(e, rest)
    decreases e, 3
  {
    if e.Or? {
      var tail := [e.kw] + Print(e.right) + rest;
      assert Print(e) + rest == Print(e.left) + tail;
      OrComplete(e.left, tail);
      assert tail[1..] == Print(e.right) + rest;
      AndComplete(e.right, rest);
    } else {
      AndComplete(e, rest);
    }
  }

  lemma {:induction false} AndComplete(e: Expr, rest: seq<string>)
    requires Fits(e, 1) && !StartsWith(rest, KwWith)
    ensures ParseAnd(Print(e) + rest) == AndLoop(e, rest)
    decreases e, 2
  {
    if e.And? {
      var tail := [e.kw] + Print(e.right) + rest;
      assert Print(e) + rest == Print(e.left) + tail;
      AndComplete(e.left, tail);
      assert tail[1..] == Print(e.right) + rest;
      WithComplete(e.right, rest);
    } else {
      WithComplete(e, rest);
    }
  }

  lemma {:induction false} WithComplete(e: Expr, rest: seq<string>)
    requires Fits(e, 2) && !StartsWith(rest, KwWith)
    ensures ParseWith(Print(e) + rest) == Done(e, rest)
    decreases e, 1
  {
    if e.With? {
      var tail := [e.kw, e.exception] + rest;
      assert Print(e) + rest == Print(e.base) + tail;
      AtomComplete(e.base, tail);
      assert tail[2..] == rest;
    } else {
      AtomComplete(e, rest);
    }
  }

  lemma {:induction false} AtomComplete(e: Expr, rest: seq<string>)
    requires Fits(e, 3)
    ensures ParseAtom(Print(e) + rest) == Done(e, rest)
    decreases e, 0
  {
    var tokens := Print(e) + rest;
    if e.Group? {
      var tail := [")"] + rest;
      assert tokens[1..] == Print(e.inner) + tail;
      OrComplete(e.inner, tail);
      assert tail[1..] == rest;
    } else {
      assert tokens[1..] == rest;
    }
  }

  /** A tree is read from a token list if and only if it is a tree of the grammar that prints to it. */
  lemma ParsesExactly(tokens: seq<string>, e: Expr)
    ensures Parse(tokens) == Some(e) <==> Fits(e, 0) && Print(e) == tokens
  {
    OrSound(tokens);
    if Parse(tokens) == Some(e) {
      assert Print(e) + [] == tokens;
    }
    if Fits(e, 0) && Print(e) == tokens {
      OrComplete(e, []);
      assert Print(e) + [] == tokens;
    }
  }

  /** The grammar is unambiguous: no two of its trees print alike. */
  lemma Unambiguous(a: Expr, b: Expr)
    requires Fits(a, 0) && Fits(b, 0) && Print(a) == Print(b)
    ensures a == b
  {
    ParsesExactly(Print(a), a);
    ParsesExactly(Print(b), b);
  }

  /** The rank of a token list, None where the check raises an error. */
  function Classified(tokens: seq<string>, t: Table): Option<Rank> {
    match Parse(tokens)
    case None => None
    case Some(tree) => Some(Eval(tree, t))
  }

  /** The parser returns rank `k` exactly when some tree of the grammar prints to the tokens and is worth `k`. */
  lemma ClassifiedExactly(tokens: seq<string>, t: Table, k: Rank)
    ensures Classified(tokens, t) == Some(k) <==> exists e :: Fits(e, 0) && Print(e) == tokens && Eval(e, t) == k
  {
    if Classified(tokens, t) == Some(k) {
      ParsesExactly(tokens, Parse(tokens).value);
    }
    forall e | Fits(e, 0) && Print(e) == tokens
      ensures Classified(tokens, t) == Some(Eval(e, t))
    {
      ParsesExactly(tokens, e);
    }
  }

  /** The exceptions of a tree are words, none an operator or a parenthesis. */
  predicate PlainExceptions(e: Expr) {
    match e
    case Id(_) => true
    case Group(inner) => PlainExceptions(inner)
    case With(base, _, exception) => KindOf(exception) == Plain && PlainExceptions(base)
    case And(left, _, right) => PlainExceptions(left) && PlainExceptions(right)
    case Or(left, _, right) => PlainExceptions(left) && PlainExceptions(right)
  }

  predicate WordsFollowWith(tokens: seq<string>) {
    forall i :: 0 <= i < |tokens| - 1 && KindOf(tokens[i]) == KwWith ==> KindOf(tokens[i + 1]) == Plain
  }

  lemma WordsFollowJoined(a: seq<string>, b: seq<string>)
    requires a != [] && b != []
    ensures WordsFollowWith(a + b) <==>
      && WordsFollowWith(a) && WordsFollowWith(b)
      && (KindOf(a[|a| - 1]) == KwWith ==> KindOf(b[0]) == Plain)
  {
    var all := a + b;
    assert forall i :: 0 <= i < |b| ==> all[|a| + i] == b[i];
    assert forall i :: 0 <= i < |a| ==> all[i] == a[i];
    if WordsFollowWith(all) {
      forall i | 0 <= i < |b| - 1 && KindOf(b[i]) == KwWith ensures KindOf(b[i + 1]) == Plain {
        assert KindOf(all[|a| + i]) == KwWith;
      }
      assert KindOf(all[|a| - 1]) == KwWith ==> KindOf(all[|a|]) == Plain;
    }
  }

  lemma {:induction false} LastIsNoKeyword(e: Expr, level: nat)
    requires Fits(e, level) && PlainExceptions(e)
    ensures KindOf(Print(e)[|Print(e)| - 1]) in {Plain, Close}
    decreases e
  {
    match e
    case Id(_) =>
    case Group(_) =>
    case With(_, _, _) =>
    case And(_, _, right) => LastIsNoKeyword(right, 2);
    case Or(_, _, right) => LastIsNoKeyword(right, 1);
  }

  lemma {:induction false} BinaryExceptions(left: Expr, kw: string, right: Expr)
    requires KindOf(kw) != KwWith
    requires PlainExceptions(left) ==> KindOf(Print(left)[|Print(left)| - 1]) != KwWith
    requires WordsFollowWith(Print(left)) <==> PlainExceptions(left)
    requires WordsFollowWith(Print(right)) <==> PlainExceptions(right)
    ensures WordsFollowWith(Print(left) + [kw] + Print(right)) <==> PlainExceptions(left) && PlainExceptions(right)
  {
    WordsFollowJoined(Print(left) + [kw], Print(right));
    WordsFollowJoined(Print(left), [kw]);
  }

  lemma WordAfterWith(kw: string, exception: string)
    requires KindOf(kw) == KwWith
    ensures WordsFollowWith([kw, exception]) <==> KindOf(exception) == Plain
  {
    var pair := [kw, exception];
    assert KindOf(pair[0]) == KwWith && pair[0 + 1] == exception;
  }

  /**
   WITH takes whatever token follows it, so the exceptions of an accepted license are words if and
   only if a word follows every WITH.
   */
  lemma {:induction false} ExceptionsArePlainExactly(e: Expr, level: nat)
    requires Fits(e, level)
    ensures WordsFollowWith(Print(e)) <==> PlainExceptions(e)
    decreases e
  {
    match e
    case Id(_) =>
    case Group(inner) =>
      ExceptionsArePlainExactly(inner, 0);
      if PlainExceptions(inner) {
        LastIsNoKeyword(inner, 0);
      }
      WordsFollowJoined(["("] + Print(inner), [")"]);
      WordsFollowJoined(["("], Print(inner));
    case With(base, kw, exception) =>
      ExceptionsArePlainExactly(base, 3);
      if PlainExceptions(base) {
        LastIsNoKeyword(base, 3);
      }
      WordsFollowJoined(Print(base), [kw, exception]);
      WordAfterWith(kw, exception);
    case And(left, kw, right) =>
      ExceptionsArePlainExactly(left, 1);
      ExceptionsArePlainExactly(right, 2);
      if PlainExceptions(left) {
        LastIsNoKeyword(left, 1);
      }
      BinaryExceptions(left, kw, right);
    case Or(left, kw, right) =>
      ExceptionsArePlainExactly(left, 0);
      ExceptionsArePlainExactly(right, 1);
      if PlainExceptions(left) {
        LastIsNoKeyword(left, 0);
      }
      BinaryExceptions(left, kw, right);
  }

  /** Any token at all, after a word and WITH, is read as its exception. */
  lemma AnyTokenIsAnException(word: string, kw: string, exception: string, t: Table)
    requires KindOf(word) == Plain && KindOf(kw) == KwWith
    ensures Classified([word, kw, exception], t) == Some(Lifted(t.rank(Ident(word)), exception, t))
    ensures WordsFollowWith([word, kw, exception]) <==> KindOf(exception) == Plain
  {
    var base := Id(word);
    var e := With(base, kw, exception);
    assert Print(e) == Print(base) + [kw, exception] == [word, kw, exception];
    assert Fits(base, 3) && Eval(base, t) == t.rank(Ident(word));
    ParsesExactly([word, kw, exception], e);
    ExceptionsArePlainExactly(e, 0);
    assert PlainExceptions(base);
  }

  /** A license whose exception is a parenthesis that nothing opened is accepted. */
  lemma ParenthesisAsException(t: Table)
    ensures Classified(["MIT", "WITH", ")"], t).Some? && !WordsFollowWith(["MIT", "WITH", ")"])
  {
    assert Upper("MIT") == "MIT" && Upper("WITH") == "WITH";
    AnyTokenIsAnException("MIT", "WITH", ")", t);
  }

  /** A license expression with its structure alone: no parentheses, no spelling. */
  datatype License =
    | Named(word: string)
    | Excepted(base: License, exception: string)
    | Both(left: License, right: License)
    | Either(left: License, right: License)

  predicate Spellable(l: License) {
    match l
    case Named(word) => KindOf(word) == Plain
    case Excepted(base, _) => Spellable(base)
    case Both(left, right) => Spellable(left) && Spellable(right)
    case Either(left, right) => Spellable(left) && Spellable(right)
  }

  function Worth(l: License, t: Table): Rank {
    match l
    case Named(word) => t.rank(Ident(word))
    case Excepted(base, exception) => Lifted(Worth(base, t), exception, t)
    case Both(left, right) => Max(Worth(left, t), Worth(right, t))
    case Either(left, right) => Min(Worth(left, t), Worth(right, t))
  }

  function Level(l: License): nat {
    match l
    case Named(_) => 3
    case Excepted(_, _) => 2
    case Both(_, _) => 1
    case Either(_, _) => 0
  }

  /** `l` where the grammar wants `level`: in parentheses only where it binds too loosely. */
  function Written(l: License, level: nat): Expr
    decreases l
  {
    var e :=
      match l
      case Named(word) => Id(word)
      case Excepted(base, exception) => With(Written(base, 3), "WITH", exception)
      case Both(left, right) => And(Written(left, 1), "AND", Written(right, 2))
      case Either(left, right) => Or(Written(left, 0), "OR", Written(right, 1));
    if Level(l) < level then Group(e) else e
  }

  lemma {:induction false} WrittenFits(l: License, level: nat, t: Table)
    requires Spellable(l) && level <= 3
    ensures Fits(Written(l, level), level)
    ensures Eval(Written(l, level), t) == Worth(l, t)
    decreases l
  {
    assert KindOf("AND") == KwAnd && KindOf("OR") == KwOr && KindOf("WITH") == KwWith by {
      assert Upper("AND") == "AND" && Upper("OR") == "OR" && Upper("WITH") == "WITH";
    }
    match l
    case Named(_) =>
    case Excepted(base, _) => WrittenFits(base, 3, t);
    case Both(left, right) =>
      WrittenFits(left, 1, t);
      WrittenFits(right, 2, t);
    case Either(left, right) =>
      WrittenFits(left, 0, t);
      WrittenFits(right, 1, t);
  }

  /**
   Keywords spelled as written and no superfluous group: a group stands only where what it holds
   would not fit bare.
   */
  predicate Tight(e: Expr, level: nat) {
    match e
    case Id(_) => true
    case Group(inner) => !Fits(inner, level) && Tight(inner, 0)
    case With(base, kw, _) => kw == "WITH" && Tight(base, 3)
    case And(left, kw, right) => kw == "AND" && Tight(left, 1) && Tight(right, 2)
    case Or(left, kw, right) => kw == "OR" && Tight(left, 0) && Tight(right, 1)
  }

  function Erased(e: Expr): License {
    match e
    case Id(word) => Named(word)
    case Group(inner) => Erased(inner)
    case With(base, _, exception) => Excepted(Erased(base), exception)
    case And(left, _, right) => Both(Erased(left), Erased(right))
    case Or(left, _, right) => Either(Erased(left), Erased(right))
  }

  lemma {:induction false} WrittenTight(l: License, level: nat, t: Table)
    requires Spellable(l) && level <= 3
    ensures Tight(Written(l, level), level)
    decreases l
  {
    match l
    case Named(_) =>
    case Excepted(base, _) =>
      WrittenTight(base, 3, t);
      WrittenFits(base, 3, t);
    case Both(left, right) =>
      WrittenTight(left, 1, t);
      WrittenTight(right, 2, t);
    case Either(left, right) =>
      WrittenTight(left, 0, t);
      WrittenTight(right, 1, t);
  }

  /** What stands in a needed group is written the same at the level it stands at. */
  lemma {:induction false} TightIsWritten(e: Expr, level: nat)
    requires Fits(e, level) && Tight(e, level) && level <= 3
    ensures Spellable(Erased(e)) && Written(Erased(e), level) == e
    decreases e
  {
    match e
    case Id(_) =>
    case Group(inner) =>
      TightIsWritten(inner, 0);
      NeedsGroup(inner, level);
    case With(base, _, _) => TightIsWritten(base, 3);
    case And(left, _, right) =>
      TightIsWritten(left, 1);
      TightIsWritten(right, 2);
    case Or(left, _, right) =>
      TightIsWritten(left, 0);
      TightIsWritten(right, 1);
  }

  lemma NeedsGroup(inner: Expr, level: nat)
    requires Fits(inner, 0) && !Fits(inner, level) && level <= 3
    ensures !inner.Group? && Level(Erased(inner)) < level
  {
  }

  /** The trees of the grammar without superfluous groups are exactly the written licenses. */
  lemma TightExactlyWritten(e: Expr, t: Table)
    ensures Fits(e, 0) && Tight(e, 0) <==> exists l :: Spellable(l) && e == Written(l, 0)
  {
    if Fits(e, 0) && Tight(e, 0) {
      TightIsWritten(e, 0);
    }
    forall l | Spellable(l) && e == Written(l, 0) ensures Fits(e, 0) && Tight(e, 0) {
      WrittenFits(l, 0, t);
      WrittenTight(l, 0, t);
    }
  }

  /** A written license is read back: WITH binds before AND, AND before OR. */
  lemma WrittenReadsBack(l: License, t: Table)
    requires Spellable(l)
    ensures Parse(Print(Written(l, 0))) == Some(Written(l, 0))
    ensures Classified(Print(Written(l, 0)), t) == Some(Worth(l, t))
  {
    WrittenFits(l, 0, t);
    ParsesExactly(Print(Written(l, 0)), Written(l, 0));
  }

  /** A leaf of a license as a licensee meets it: its identifier, and the exceptions that cover it, innermost first. */
  datatype Leaf = Leaf(word: string, exceptions: seq<string>)

  function LeafRank(leaf: Leaf, t: Table): Rank
    decreases |leaf.exceptions|
  {
    if leaf.exceptions == [] then t.rank(Ident(leaf.word))
    else
      var n := |leaf.exceptions| - 1;
      Lifted(LeafRank(leaf.(exceptions := leaf.exceptions[..n]), t), leaf.exceptions[n], t)
  }

  function Covered(leaves: seq<Leaf>, exception: string): (r: seq<Leaf>)
    ensures |r| == |leaves|
  {
    seq(|leaves|, i requires 0 <= i < |leaves| => leaves[i].(exceptions := leaves[i].exceptions + [exception]))
  }

  /** `leaves` are what is left of `e` by taking one side of every OR that is met. */
  ghost predicate Chosen(e: Expr, leaves: seq<Leaf>) {
    match e
    case Id(word) => leaves == [Leaf(word, [])]
    case Group(inner) => Chosen(inner, leaves)
    case With(base, _, exception) => exists kept :: Chosen(base, kept) && leaves == Covered(kept, exception)
    case And(left, _, right) => exists a, b :: Chosen(left, a) && Chosen(right, b) && leaves == a + b
    case Or(left, _, right) => Chosen(left, leaves) || Chosen(right, leaves)
  }

  /** The worst of the leaves. */
  function Worst(leaves: seq<Leaf>, t: Table): Rank {
    if leaves == [] then PERMISSIVE else Max(Worst(leaves[..|leaves| - 1], t), LeafRank(leaves[|leaves| - 1], t))
  }

  lemma {:induction false} WorstConcat(a: seq<Leaf>, b: seq<Leaf>, t: Table)
    ensures Worst(a + b, t) == Max(Worst(a, t), Worst(b, t))
  {
    if b == [] {
      assert a + b == a;
    } else {
      WorstConcat(a, b[..|b| - 1], t);
      assert (a + b)[..|a + b| - 1] == a + b[..|b| - 1];
    }
  }

  /** Lifting over the whole is lifting over each leaf: it is monotone, and an unknown license stays unknown. */
  lemma {:induction false} WorstCovered(leaves: seq<Leaf>, exception: string, t: Table)
    ensures Worst(Covered(leaves, exception), t) == Lifted(Worst(leaves, t), exception, t)
  {
    if leaves != [] {
      var n := |leaves| - 1;
      WorstCovered(leaves[..n], exception, t);
      var all := Covered(leaves, exception);
      assert all[..n] == Covered(leaves[..n], exception);
      assert all[n].exceptions[..|leaves[n].exceptions|] == leaves[n].exceptions;
    }
  }

  lemma {:induction false} LiftedIsMonotone(a: Rank, b: Rank, exception: string, t: Table)
    ensures a <= b ==> Lifted(a, exception, t) <= Lifted(b, exception, t)
    ensures Lifted(a, exception, t) <= a
    ensures Lifted(a, exception, t) == UNKNOWN <==> a == UNKNOWN
  {
  }

  /** The rank is the licensee's best choice: no way of taking the ORs is better... */
  lemma {:induction false} NoBetterChoice(e: Expr, leaves: seq<Leaf>, t: Table)
    requires Chosen(e, leaves)
    ensures Eval(e, t) <= Worst(leaves, t)
  {
    match e
    case Id(word) =>
      assert leaves[..0] == [];
    case Group(inner) =>
      NoBetterChoice(inner, leaves, t);
    case With(base, _, exception) =>
      var kept :| Chosen(base, kept) && leaves == Covered(kept, exception);
      NoBetterChoice(base, kept, t);
      WorstCovered(kept, exception, t);
      LiftedIsMonotone(Eval(base, t), Worst(kept, t), exception, t);
    case And(left, _, right) =>
      var a, b :| Chosen(left, a) && Chosen(right, b) && leaves == a + b;
      NoBetterChoice(left, a, t);
      NoBetterChoice(right, b, t);
      WorstConcat(a, b, t);
    case Or(left, _, right) =>
      if Chosen(left, leaves) {
        NoBetterChoice(left, leaves, t);
      } else {
        NoBetterChoice(right, leaves, t);
      }
  }

  /** ...and one is as good. */
  lemma {:induction false} BestChoice(e: Expr, t: Table) returns (leaves: seq<Leaf>)
    ensures Chosen(e, leaves) && Worst(leaves, t) == Eval(e, t)
  {
    match e
    case Id(word) =>
      leaves := [Leaf(word, [])];
      assert leaves[..0] == [];
    case Group(inner) =>
      leaves := BestChoice(inner, t);
    case With(base, _, exception) =>
      var kept := BestChoice(base, t);
      leaves := Covered(kept, exception);
      WorstCovered(kept, exception, t);
    case And(left, _, right) =>
      var a := BestChoice(left, t);
      var b := BestChoice(right, t);
      leaves := a + b;
      WorstConcat(a, b, t);
    case Or(left, _, right) =>
      if Eval(right, t) < Eval(left, t) {
        leaves := BestChoice(right, t);
      } else {
        leaves := BestChoice(left, t);
      }
  }

  // ----- ranks, identifiers and keywords, plainly

  /** A linking exception makes weak and strong copyleft permissive; nothing else changes a rank. */
  lemma {:induction false} LiftedExactly(rank: Rank, exception: string, t: Table)
    ensures t.links(exception) && 1 <= rank <= 2 ==> Lifted(rank, exception, t) == 0
    ensures !t.links(exception) || rank == 0 || rank == 3 ==> Lifted(rank, exception, t) == rank
  {
  }

  /** A leaf is worth its identifier's rank, or permissive where that is copyleft and one of its exceptions links. */
  lemma {:induction false} LeafRankExactly(leaf: Leaf, t: Table)
    ensures var r := t.rank(Ident(leaf.word));
      LeafRank(leaf, t) == if 1 <= r <= 2 && (exists x :: x in leaf.exceptions && t.links(x)) then 0 else r
    decreases |leaf.exceptions|
  {
    if leaf.exceptions != [] {
      var n := |leaf.exceptions| - 1;
      LeafRankExactly(leaf.(exceptions := leaf.exceptions[..n]), t);
      assert leaf.exceptions == leaf.exceptions[..n] + [leaf.exceptions[n]];
      assert forall x :: x in leaf.exceptions <==> x in leaf.exceptions[..n] || x == leaf.exceptions[n];
    }
  }

  /** The worst is one of the leaves' ranks, and none is worse. */
  lemma {:induction false} WorstExactly(leaves: seq<Leaf>, t: Table)
    ensures forall leaf :: leaf in leaves ==> LeafRank(leaf, t) <= Worst(leaves, t)
    ensures leaves != [] ==> exists leaf :: leaf in leaves && LeafRank(leaf, t) == Worst(leaves, t)
    ensures leaves == [] ==> Worst(leaves, t) == 0
  {
    if leaves != [] {
      var n := |leaves| - 1;
      WorstExactly(leaves[..n], t);
      assert leaves == leaves[..n] + [leaves[n]];
      assert forall leaf :: leaf in leaves <==> leaf in leaves[..n] || leaf == leaves[n];
      assert leaves[n] in leaves;
    }
  }

  /** A `+` at the end of a token is `-or-later`. */
  lemma IdentExactly(word: string)
    ensures Ident(word + "+") == word + "-or-later"
    ensures word == "" || word[|word| - 1] != '+' ==> Ident(word) == word
  {
  }

  /** The keywords are told in any case, and nothing else is one. */
  lemma {:induction false} KeywordsExactly(token: string)
    ensures KindOf(token) == KwOr <==> |token| == 2 && token[0] in "oO" && token[1] in "rR"
    ensures KindOf(token) == KwAnd <==> |token| == 3 && token[0] in "aA" && token[1] in "nN" && token[2] in "dD"
    ensures KindOf(token) == KwWith <==>
      |token| == 4 && token[0] in "wW" && token[1] in "iI\U{0131}" && token[2] in "tT" && token[3] in "hH"
    ensures KindOf(token) == Open <==> token == "("
    ensures KindOf(token) == Close <==> token == ")"
  {
    var up := Upper(token);
    assert |up| == |token|;
    if |token| == 2 {
      assert up == [up[0], up[1]];
    } else if |token| == 3 {
      assert up == [up[0], up[1], up[2]];
    } else if |token| == 4 {
      assert up == [up[0], up[1], up[2], up[3]];
    }
  }
}
