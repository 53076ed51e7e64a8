/**
 License expressions as text: the tables of identifiers, the tokens of a string, and the check's
 entry point.
 */
module Licenses {
  import opened Options
  import opened Spdx

  const PERMISSIVE_IDS := {
    "MIT", "MIT-0", "Apache-2.0", "BSD-1-Clause", "BSD-2-Clause", "BSD-3-Clause", "0BSD", "ISC", "Zlib", "BSL-1.0",
    "CC0-1.0", "Unlicense", "Unicode-3.0", "Unicode-DFS-2016", "WTFPL", "PSF-2.0", "Python-2.0", "NCSA", "OFL-1.1",
    "Artistic-2.0", "BlueOak-1.0.0", "IJG", "MIT-CMU", "X11", "CDLA-Permissive-2.0", "OpenSSL", "SSLeay-standalone",
    "FTL", "libpng-2.0", "bzip2-1.0.6", "curl", "HPND", "ICU", "Beerware", "Fair"}
  const FILE_LEVEL_COPYLEFT_IDS := {
    "MPL-2.0", "MPL-1.1", "CDDL-1.0", "CDDL-1.1", "EPL-1.0", "EPL-2.0", "CPL-1.0"}
  const WEAK_PREFIXES := ["LGPL-"]
  const COPYLEFT_PREFIXES := [
    "GPL-", "AGPL-", "SSPL-", "EUPL-", "OSL-", "CC-BY-SA-", "CC-BY-NC", "CECILL", "QPL-", "Sleepycat", "RPL-", "CPAL-"]
  const LINKING_EXCEPTIONS := {
    "GCC-exception-3.1", "GCC-exception-2.0", "Classpath-exception-2.0", "LLVM-exception", "Bison-exception-2.2",
    "Autoconf-exception-3.0", "Autoconf-exception-2.0", "Font-exception-2.0", "mif-exception", "Linux-syscall-note",
    "GPL-3.0-linking-exception", "LGPL-3.0-linking-exception"}

  predicate HasPrefix(ident: string, prefixes: seq<string>) {
    exists p :: p in prefixes && p <= ident
  }

  function ClassifyId(ident: string): Rank {
    if ident in PERMISSIVE_IDS || ident in FILE_LEVEL_COPYLEFT_IDS then PERMISSIVE
    else if HasPrefix(ident, WEAK_PREFIXES) then WEAK
    else if HasPrefix(ident, COPYLEFT_PREFIXES) then COPYLEFT
    else UNKNOWN
  }

  const TABLE := Table(ident => ClassifyId(ident), exception => exception in LINKING_EXCEPTIONS)

  /** What `\s` matches in a Python pattern. */
  predicate IsSpace(c: char) {
    || '\t' <= c <= '\r' || '\U{1C}' <= c <= ' ' || c == '\U{85}' || c == '\U{A0}' || c == '\U{1680}'
    || '\U{2000}' <= c <= '\U{200A}' || c == '\U{2028}' || c == '\U{2029}' || c == '\U{202F}' || c == '\U{205F}'
    || c == '\U{3000}'
  }

  predicate IsParen(c: char) {
    c == '(' || c == ')'
  }

  /** `expression.replace("/", " OR ")`. */
  function SlashToOr(s: string): string {
    if s == [] then []
    else (if s[0] == '/' then " OR " else [s[0]]) + SlashToOr(s[1..])
  }

  /** How far the word at the start of `s` goes. */
  function WordLength(s: string): (n: nat)
    ensures n <= |s|
    ensures s != [] && !IsSpace(s[0]) && !IsParen(s[0]) ==> n > 0
  {
    if s == [] || IsSpace(s[0]) || IsParen(s[0]) then 0 else 1 + WordLength(s[1..])
  }

  /** The tokens of a string: each parenthesis, and each longest run without spaces or parentheses. */
  function Lex(s: string): seq<string>
    decreases |s|
  {
    if s == [] then []
    else if IsSpace(s[0]) then Lex(s[1..])
    else if IsParen(s[0]) then [[s[0]]] + Lex(s[1..])
    else [s[..WordLength(s)]] + Lex(s[WordLength(s)..])
  }

  method ClassifyExpression(expression: string) returns (rank: Option<Rank>)
    ensures rank == Classified(Lex(SlashToOr(expression)), TABLE)
  {
    var parser := new Parser(Lex(SlashToOr(expression)), TABLE);
    rank := parser.Classify();
  }

  /** A string that is one token and holds no slash. */
  predicate Lexeme(token: string) {
    token == "(" || token == ")" ||
    (token != "" && forall c :: c in token ==> !IsSpace(c) && !IsParen(c) && c != '/')
  }

  function Spaced(tokens: seq<string>): string {
    if tokens == [] then [] else tokens[0] + " " + Spaced(tokens[1..])
  }

  lemma {:induction false} SlashFree(s: string, t: string)
    requires '/' !in s
    ensures SlashToOr(s + t) == s + SlashToOr(t)
  {
    if s == [] {
      assert s + t == t;
    } else {
      SlashFree(s[1..], t);
      assert (s + t)[1..] == s[1..] + t;
    }
  }

  lemma {:induction false} SpacedSlashFree(tokens: seq<string>)
    requires forall t :: t in tokens ==> Lexeme(t)
    ensures SlashToOr(Spaced(tokens)) == Spaced(tokens)
  {
    if tokens != [] {
      SpacedSlashFree(tokens[1..]);
      assert Lexeme(tokens[0]);
      assert forall c :: c in tokens[0] + " " ==> c in tokens[0] || c == ' ';
      SlashFree(tokens[0] + " ", Spaced(tokens[1..]));
    }
  }

  lemma {:induction false} WordEnds(word: string, rest: string)
    requires forall c :: c in word ==> !IsSpace(c) && !IsParen(c)
    requires rest == [] || IsSpace(rest[0]) || IsParen(rest[0])
    ensures WordLength(word + rest) == |word|
  {
    if word == [] {
      assert word + rest == rest;
    } else {
      assert (word + rest)[1..] == word[1..] + rest;
      WordEnds(word[1..], rest);
    }
  }

  lemma LexFirst(token: string, rest: string)
    requires Lexeme(token) && rest != [] && IsSpace(rest[0])
    ensures Lex(token + rest) == [token] + Lex(rest[1..])
  {
    var s := token + rest;
    if token == "(" || token == ")" {
      assert s[1..] == rest && [s[0]] == token;
    } else {
      WordEnds(token, rest);
      assert s[..|token|] == token && s[|token|..] == rest;
    }
  }

  /** Tokens written with spaces after them are read back as they are. */
  lemma {:induction false} LexReadsBack(tokens: seq<string>)
    requires forall t :: t in tokens ==> Lexeme(t)
    ensures Lex(Spaced(tokens)) == tokens
  {
    if tokens != [] {
      var rest := " " + Spaced(tokens[1..]);
      assert Spaced(tokens) == tokens[0] + rest;
      LexFirst(tokens[0], rest);
      assert rest[1..] == Spaced(tokens[1..]);
      LexReadsBack(tokens[1..]);
    }
  }

  /** A license written out as text is ranked at what the license is worth. */
  lemma TextReadsBack(l: License)
    requires Spellable(l) && forall t :: t in Print(Written(l, 0)) ==> Lexeme(t)
    ensures Classified(Lex(SlashToOr(Spaced(Print(Written(l, 0))))), TABLE) == Some(Worth(l, TABLE))
  {
    var tokens := Print(Written(l, 0));
    SpacedSlashFree(tokens);
    LexReadsBack(tokens);
    WrittenReadsBack(l, TABLE);
  }

  lemma SlashBetween(a: string, b: string)
    requires '/' !in a && '/' !in b
    ensures SlashToOr(a + "/" + b) == a + (" OR " + b)
  {
    SlashFree(a, "/" + b);
    assert a + "/" + b == a + ("/" + b) && ("/" + b)[1..] == b;
    SlashFree(b, []);
    assert b + [] == b;
  }

  lemma LexLast(token: string)
    requires Lexeme(token)
    ensures Lex(token) == [token]
  {
    if token != "(" && token != ")" {
      WordEnds(token, []);
      assert token + [] == token && token[..|token|] == token;
    }
  }

  lemma LexOrLast(b: string)
    requires Lexeme(b)
    ensures Lex("OR" + (" " + b)) == ["OR", b]
  {
    TokenRead("OR", " " + b);
    GapSkipped(" ", b);
    LexLast(b);
  }

  lemma LexBetween(a: string, b: string)
    requires Lexeme(a) && Lexeme(b)
    ensures Lex(a + (" OR " + b)) == [a, "OR", b]
  {
    var last := "OR" + (" " + b);
    assert " OR " + b == " " + last;
    TokenRead(a, " " + last);
    GapSkipped(" ", last);
    LexOrLast(b);
    assert [a] + ["OR", b] == [a, "OR", b];
  }

  lemma EitherReads(a: string, b: string, t: Table)
    requires KindOf(a) == Plain && KindOf(b) == Plain
    ensures Classified([a, "OR", b], t) == Some(Min(t.rank(Ident(a)), t.rank(Ident(b))))
  {
    var l := Either(Named(a), Named(b));
    assert Print(Written(l, 0)) == [a] + ["OR"] + [b] == [a, "OR", b];
    WrittenReadsBack(l, t);
  }

  /** The legacy slash is an OR: the better of the two licenses counts. */
  lemma LegacySlash(a: string, b: string)
    requires Lexeme(a) && Lexeme(b) && KindOf(a) == Plain && KindOf(b) == Plain
    ensures Classified(Lex(SlashToOr(a + "/" + b)), TABLE) ==
            Some(Min(TABLE.rank(Ident(a)), TABLE.rank(Ident(b))))
  {
    SlashBetween(a, b);
    LexBetween(a, b);
    EitherReads(a, b, TABLE);
  }

  // ----- any layout

  /** Tokens between `gaps` of whitespace, which may be empty only beside a parenthesis. */
  function Laid(tokens: seq<string>, gaps: seq<string>): string
    requires |gaps| == |tokens| + 1
  {
    if tokens == [] then gaps[0] else gaps[0] + (tokens[0] + Laid(tokens[1..], gaps[1..]))
  }

  predicate IsWord(token: string) {
    token != "" && forall c :: c in token ==> !IsSpace(c) && !IsParen(c)
  }

  predicate LaysOut(tokens: seq<string>, gaps: seq<string>) {
    && |gaps| == |tokens| + 1
    && (forall g, c :: g in gaps && c in g ==> IsSpace(c))
    && (forall t :: t in tokens ==> t == "(" || t == ")" || IsWord(t))
    && (forall i :: 0 < i < |tokens| && IsWord(tokens[i - 1]) && IsWord(tokens[i]) ==> gaps[i] != "")
  }

  lemma {:induction false} GapSkipped(gap: string, rest: string)
    requires forall c :: c in gap ==> IsSpace(c)
    ensures Lex(gap + rest) == Lex(rest)
  {
    if gap == [] {
      assert gap + rest == rest;
    } else {
      assert (gap + rest)[1..] == gap[1..] + rest;
      assert gap[0] in gap;
      GapSkipped(gap[1..], rest);
    }
  }

  lemma TokenRead(token: string, rest: string)
    requires token == "(" || token == ")" || (IsWord(token) && (rest == [] || IsSpace(rest[0]) || IsParen(rest[0])))
    ensures Lex(token + rest) == [token] + Lex(rest)
  {
    var s := token + rest;
    if token == "(" || token == ")" {
      assert s[1..] == rest && [s[0]] == token;
    } else {
      WordEnds(token, rest);
      assert token[0] in token;
      assert s[..|token|] == token && s[|token|..] == rest;
    }
  }

  /** What a layout starts with. */
  lemma LaidStarts(tokens: seq<string>, gaps: seq<string>)
    requires LaysOut(tokens, gaps) && (gaps[0] != "" || tokens == [] || !IsWord(tokens[0]))
    ensures var s := Laid(tokens, gaps); s == [] || IsSpace(s[0]) || IsParen(s[0])
  {
    if gaps[0] != "" {
      assert gaps[0][0] in gaps[0] && gaps[0] in gaps;
    } else if tokens != [] {
      assert tokens[0] in tokens;
    }
  }

  /** However its tokens are laid out, a string is read as them: spaces end a word, and so do parentheses. */
  lemma {:induction false} AnyLayoutReadsBack(tokens: seq<string>, gaps: seq<string>)
    requires LaysOut(tokens, gaps)
    ensures Lex(Laid(tokens, gaps)) == tokens
  {
    assert gaps[0] in gaps;
    if tokens == [] {
      GapSkipped(gaps[0], "");
      assert gaps[0] + "" == gaps[0];
    } else {
      var rest, after := tokens[1..], gaps[1..];
      assert LaysOut(rest, after) by {
        assert forall g :: g in after ==> g in gaps;
        assert forall t :: t in rest ==> t in tokens;
        assert forall i :: 0 < i < |rest| ==> rest[i - 1] == tokens[i] && rest[i] == tokens[i + 1] && after[i] == gaps[i + 1];
      }
      AnyLayoutReadsBack(rest, after);
      assert tokens[0] in tokens;
      if IsWord(tokens[0]) {
        if rest != [] {
          assert tokens[1 - 1] == tokens[0] && tokens[1] == rest[0] && gaps[1] == after[0];
        }
        LaidStarts(rest, after);
      }
      TokenRead(tokens[0], Laid(rest, after));
      GapSkipped(gaps[0], tokens[0] + Laid(rest, after));
    }
  }

  /** Every slash is an OR. */
  lemma {:induction false} SlashesAreOrs(a: string, rest: string)
    requires '/' !in a
    ensures SlashToOr(a) == a
    ensures SlashToOr(a + ("/" + rest)) == a + (" OR " + SlashToOr(rest))
  {
    SlashFree(a, "/" + rest);
    SlashFree(a, "");
    assert a + "" == a && a + [] == a;
    assert ("/" + rest)[1..] == rest;
  }

  predicate Prefixed(ident: string, prefix: string) {
    |prefix| <= |ident| && forall i :: 0 <= i < |prefix| ==> ident[i] == prefix[i]
  }

  /** What an identifier the tables do not list is worth: by its family, the lesser GPL's told from the others. */
  lemma {:induction false} FamiliesExactly(ident: string)
    requires ident !in PERMISSIVE_IDS && ident !in FILE_LEVEL_COPYLEFT_IDS
    ensures ClassifyId(ident) == 1 <==> Prefixed(ident, "LGPL-")
    ensures ClassifyId(ident) == 2 <==>
      !Prefixed(ident, "LGPL-") && exists k :: 0 <= k < |COPYLEFT_PREFIXES| && Prefixed(ident, COPYLEFT_PREFIXES[k])
    ensures ClassifyId(ident) in {1, 2, 3}
  {
    PrefixIsPrefixed(ident);
    assert WEAK_PREFIXES == ["LGPL-"] && "LGPL-" in WEAK_PREFIXES;
    if p :| p in COPYLEFT_PREFIXES && p <= ident {
      var k :| 0 <= k < |COPYLEFT_PREFIXES| && COPYLEFT_PREFIXES[k] == p;
      assert Prefixed(ident, COPYLEFT_PREFIXES[k]);
    }
    if k :| 0 <= k < |COPYLEFT_PREFIXES| && Prefixed(ident, COPYLEFT_PREFIXES[k]) {
      assert COPYLEFT_PREFIXES[k] in COPYLEFT_PREFIXES && COPYLEFT_PREFIXES[k] <= ident;
    }
  }

  lemma PrefixIsPrefixed(ident: string)
    ensures forall p: string :: p <= ident <==> Prefixed(ident, p)
  {
    forall p: string ensures p <= ident <==> Prefixed(ident, p) {
      if Prefixed(ident, p) {
        assert ident[..|p|] == p;
      }
    }
  }

  /** The tables' own licenses are permissive, those that are copyleft in their files among them. */
  lemma {:induction false} ListedArePermissive(ident: string)
    requires ident in PERMISSIVE_IDS || ident in FILE_LEVEL_COPYLEFT_IDS
    ensures ClassifyId(ident) == 0
  {
  }
}
