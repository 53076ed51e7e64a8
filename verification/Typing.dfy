/**
 Keyboard actions of the agent interface: what key events a `type` and a `key` request turn into,
 and what a seat that receives them makes of it.

 `TypeEvents` and `KeyEvents` say which events come out, the methods of `Keyboard` are the code
 that emits them. `Seat` is the other end: it tracks the keys held and reads a keysym off the
 keymap at every press.
 */
module Typing {
  import opened Options
  import DR = DistinctRuns

  type Sym = nat
  type Code = nat

  const KC_SHIFT: Code := 50
  const KC_SHIFT_R: Code := 62
  const KC_ALTGR: Code := 108

  predicate IsModifier(code: Code) {
    code in {37, 105, 50, 62, 64, 108, 133, 134}
  }

  /**
   The desktop during one run of a text: where its keymap has a keysym (code 0: nowhere), what its
   transient binds for a list of keysyms are, the keymap then in force, and its AltGr code.
   */
  datatype Backend = Backend(
    resolve: Sym -> (Code, nat),
    bind: seq<Sym> -> map<Sym, Code>,
    keymap: (Code, nat) -> Sym,
    altgr: Code)

  /** A key event, or the start of run `run`, when the keymap of that run takes effect. */
  datatype Event = Key(code: Code, pressed: bool) | Rebind(run: nat)

  function Shifted(level: nat): bool { level % 2 == 1 }

  function AltGred(level: nat): bool { level / 2 % 2 == 1 }

  /** Level bits of a set of held keys: 50 and 62 are the two Shift keys of every pc105 keymap. */
  function Mask(held: set<Code>, altgr: Code): nat {
    (if 50 in held || 62 in held then 1 else 0) + (if altgr != 0 && altgr in held then 2 else 0)
  }

  function LevelModifiers(level: nat, held: nat, altgr: Code): seq<Code> {
    (if Shifted(level) && !Shifted(held) then [KC_SHIFT] else []) +
    (if AltGred(level) && !AltGred(held) && altgr != 0 then [altgr] else [])
  }

  function Pressed(codes: seq<Code>): seq<Event> {
    seq(|codes|, i requires 0 <= i < |codes| => Key(codes[i], true))
  }

  /** Released in the reverse order of pressing. */
  function ReleasedBack(codes: seq<Code>): seq<Event> {
    seq(|codes|, i requires 0 <= i < |codes| => Key(codes[|codes| - 1 - i], false))
  }

  function Tap(mods: seq<Code>, code: Code): seq<Event> {
    Pressed(mods) + [Key(code, true), Key(code, false)] + ReleasedBack(mods)
  }

  /** The key and level a keysym is typed at: the keymap's, else a transient bind's plain level. */
  function Place(b: Backend, bound: map<Sym, Code>, sym: Sym): Option<(Code, nat)> {
    if sym != 0 && b.resolve(sym).0 != 0 then Some(b.resolve(sym))
    else if sym in bound then Some((bound[sym], 0))
    else None
  }

  function SymEvents(b: Backend, bound: map<Sym, Code>, sym: Sym): seq<Event> {
    match Place(b, bound, sym)
    case None => []
    case Some((code, level)) => Tap(LevelModifiers(level, 0, b.altgr), code)
  }

  function RunEvents(b: Backend, bound: map<Sym, Code>, syms: seq<Sym>): seq<Event> {
    if syms == [] then []
    else RunEvents(b, bound, syms[..|syms| - 1]) + SymEvents(b, bound, syms[|syms| - 1])
  }

  /** The keysyms of a run its keymap lacks, each once, in the order they first come. */
  function Unresolved(b: Backend, syms: seq<Sym>): seq<Sym> {
    if syms == [] then []
    else
      var before, sym := Unresolved(b, syms[..|syms| - 1]), syms[|syms| - 1];
      if sym != 0 && b.resolve(sym).0 == 0 && sym !in before then before + [sym] else before
  }

  function Bound(b: Backend, syms: seq<Sym>): map<Sym, Code> {
    b.bind(Unresolved(b, syms))
  }

  function TypeEvents(backends: nat -> Backend, runs: seq<seq<Sym>>): seq<Event> {
    if runs == [] then []
    else
      var n := |runs| - 1;
      TypeEvents(backends, runs[..n]) + [Rebind(n)] + RunEvents(backends(n), Bound(backends(n), runs[n]), runs[n])
  }

  /** A part of a key chord: a named key's code, or any other spelling's keysym (0: none). */
  datatype Part = Named(code: Code) | Spelled(sym: Sym)

  datatype Plan = Plan(mods: seq<Code>, main: Option<(Code, nat)>, unresolved: Option<Sym>)

  /** What the parts of a chord ask for; the last one that names a key counts. */
  function Planned(b: Backend, parts: seq<Part>): Plan {
    if parts == [] then Plan([], None, None)
    else
      var p := Planned(b, parts[..|parts| - 1]);
      match parts[|parts| - 1]
      case Named(code) =>
        if IsModifier(code) then p.(mods := p.mods + [code]) else p.(main := Some((code, 0)), unresolved := None)
      case Spelled(sym) =>
        if sym == 0 then p
        else if b.resolve(sym).0 != 0 then p.(main := Some(b.resolve(sym)), unresolved := None)
        else p.(main := None, unresolved := Some(sym))
  }

  /** The key of a plan once transient binds are in force. */
  function MainKey(p: Plan, bound: map<Sym, Code>): Option<(Code, nat)> {
    if p.main.Some? then p.main
    else if p.unresolved.Some? && p.unresolved.value in bound then Some((bound[p.unresolved.value], 0))
    else None
  }

  /** The level bits the chord's own modifiers hold. */
  function HeldBits(mods: seq<Code>, altgr: Code): nat {
    if mods == [] then 0
    else
      var held, sc := HeldBits(mods[..|mods| - 1], altgr), mods[|mods| - 1];
      if sc == KC_SHIFT || sc == KC_SHIFT_R then (if Shifted(held) then held else held + 1)
      else if sc == KC_ALTGR || sc == altgr then (if AltGred(held) then held else held + 2)
      else held
  }

  /** The tap inside a chord: of its key, or of its last modifier where it has no key. */
  function Struck(mods: seq<Code>, main: Option<(Code, nat)>, altgr: Code): seq<Event> {
    match main
    case Some((code, level)) => Tap(LevelModifiers(level, HeldBits(mods, altgr), altgr), code)
    case None => if mods == [] then [] else Tap([], mods[|mods| - 1])
  }

  function KeyEvents(p: Plan, bound: map<Sym, Code>, altgr: Code): seq<Event> {
    Pressed(p.mods) + Struck(p.mods, MainKey(p, bound), altgr) + ReleasedBack(p.mods)
  }

  function Asked(p: Plan): seq<Sym> {
    if p.unresolved.Some? then [p.unresolved.value] else []
  }

  lemma Regroup(a: seq<Event>, b: seq<Event>, c: seq<Event>)
    ensures a + b + c == a + (b + c)
  {
  }

  lemma RunEventsSnoc(b: Backend, bound: map<Sym, Code>, syms: seq<Sym>, i: nat)
    requires i < |syms|
    ensures RunEvents(b, bound, syms[..i + 1]) == RunEvents(b, bound, syms[..i]) + SymEvents(b, bound, syms[i])
  {
    assert syms[..i + 1][..i] == syms[..i];
  }

  lemma TypeEventsSnoc(backends: nat -> Backend, runs: seq<seq<Sym>>, i: nat)
    requires i < |runs|
    ensures TypeEvents(backends, runs[..i + 1]) ==
            TypeEvents(backends, runs[..i]) + [Rebind(i)] + RunEvents(backends(i), Bound(backends(i), runs[i]), runs[i])
  {
    assert runs[..i + 1][..i] == runs[..i];
  }

  /** A request's cache of where the keymap has its keysyms. */
  class KeyResolver {
    const backend: Backend
    var cache: map<Sym, (Code, nat)>

    ghost predicate Valid()
      reads this
    {
      forall s :: s in cache ==> s != 0 && cache[s] == backend.resolve(s)
    }

    constructor (backend: Backend)
      ensures Valid() && this.backend == backend && cache == map[]
    {
      this.backend, cache := backend, map[];
    }

    /** One round trip for what is not cached yet. */
    method Prefetch(keysyms: seq<Sym>)
      requires Valid()
      modifies this`cache
      ensures Valid() && old(cache.Keys) <= cache.Keys
      ensures forall s :: s in cache <==> s in old(cache) || (s in keysyms && s != 0)
    {
      var missing: seq<Sym> := [];
      for i := 0 to |keysyms|
        invariant forall s :: s in missing <==> s in keysyms[..i] && s != 0 && s !in cache
      {
        var s := keysyms[i];
        assert keysyms[..i + 1] == keysyms[..i] + [s];
        if s != 0 && s !in cache && s !in missing {
          missing := missing + [s];
        }
      }
      assert keysyms[..|keysyms|] == keysyms;
      for i := 0 to |missing|
        invariant Valid()
        invariant forall s :: s in cache <==> s in old(cache) || s in missing[..i]
      {
        cache := cache[missing[i] := backend.resolve(missing[i])];
        assert missing[..i + 1] == missing[..i] + [missing[i]];
      }
      assert missing[..|missing|] == missing;
    }

    method Resolve(keysym: Sym) returns (hit: Option<(Code, nat)>)
      requires Valid()
      modifies this`cache
      ensures Valid() && old(cache.Keys) <= cache.Keys
      ensures hit == if keysym != 0 && backend.resolve(keysym).0 != 0 then Some(backend.resolve(keysym)) else None
    {
      if keysym == 0 {
        return None;
      }
      Prefetch([keysym]);
      var found := cache[keysym];
      hit := if found.0 != 0 then Some(found) else None;
    }
  }

  class Keyboard {
    var events: seq<Event>

    constructor ()
      ensures events == []
    {
      events := [];
    }

    method Key(code: Code, pressed: bool)
      modifies this`events
      ensures events == old(events) + [Event.Key(code, pressed)]
    {
      events := events + [Event.Key(code, pressed)];
    }

    method PressAll(codes: seq<Code>)
      modifies this`events
      ensures events == old(events) + Pressed(codes)
    {
      for i := 0 to |codes|
        invariant events == old(events) + Pressed(codes[..i])
      {
        Key(codes[i], true);
        assert Pressed(codes[..i + 1]) == Pressed(codes[..i]) + [Event.Key(codes[i], true)];
      }
      assert codes[..|codes|] == codes;
    }

    method ReleaseAllBack(codes: seq<Code>)
      modifies this`events
      ensures events == old(events) + ReleasedBack(codes)
    {
      var i := |codes|;
      while i > 0
        invariant 0 <= i <= |codes|
        invariant events == old(events) + ReleasedBack(codes)[..|codes| - i]
      {
        i := i - 1;
        Key(codes[i], false);
        assert ReleasedBack(codes)[|codes| - 1 - i] == Event.Key(codes[i], false);
      }
    }

    method TapKey(mods: seq<Code>, code: Code)
      modifies this`events
      ensures events == old(events) + Tap(mods, code)
    {
      PressAll(mods);
      Key(code, true);
      Key(code, false);
      ReleaseAllBack(mods);
    }

    static method FindUnresolved(resolver: KeyResolver, syms: seq<Sym>) returns (unresolved: seq<Sym>)
      requires resolver.Valid()
      modifies resolver
      ensures resolver.Valid()
      ensures unresolved == Unresolved(resolver.backend, syms)
    {
      unresolved := [];
      for i := 0 to |syms|
        invariant resolver.Valid()
        invariant unresolved == Unresolved(resolver.backend, syms[..i])
      {
        var hit := resolver.Resolve(syms[i]);
        assert syms[..i + 1][..i] == syms[..i];
        if syms[i] != 0 && hit.None? && syms[i] !in unresolved {
          unresolved := unresolved + [syms[i]];
        }
      }
      assert syms[..|syms|] == syms;
    }

    method TypeSym(resolver: KeyResolver, bound: map<Sym, Code>, sym: Sym)
      requires resolver.Valid()
      modifies this`events, resolver
      ensures resolver.Valid()
      ensures events == old(events) + SymEvents(resolver.backend, bound, sym)
    {
      var hit := resolver.Resolve(sym);
      if hit.Some? {
        TapKey(LevelModifiers(hit.value.1, 0, resolver.backend.altgr), hit.value.0);
      } else if sym in bound {
        assert LevelModifiers(0, 0, resolver.backend.altgr) == [];
        TapKey([], bound[sym]);
      }
    }

    method TypeSyms(resolver: KeyResolver, bound: map<Sym, Code>, syms: seq<Sym>)
      requires resolver.Valid()
      modifies this`events, resolver
      ensures resolver.Valid()
      ensures events == old(events) + RunEvents(resolver.backend, bound, syms)
    {
      assert old(events) + [] == events;
      for i := 0 to |syms|
        invariant resolver.Valid()
        invariant events == old(events) + RunEvents(resolver.backend, bound, syms[..i])
      {
        TypeSym(resolver, bound, syms[i]);
        RunEventsSnoc(resolver.backend, bound, syms, i);
        Regroup(old(events), RunEvents(resolver.backend, bound, syms[..i]), SymEvents(resolver.backend, bound, syms[i]));
      }
      assert syms[..|syms|] == syms;
    }

    method TypeRun(backend: Backend, syms: seq<Sym>)
      modifies this`events
      ensures events == old(events) + RunEvents(backend, Bound(backend, syms), syms)
    {
      var resolver := new KeyResolver(backend);
      resolver.Prefetch(syms);
      var unresolved := FindUnresolved(resolver, syms);
      TypeSyms(resolver, backend.bind(unresolved), syms);
    }

    method TypeRuns(backends: nat -> Backend, runs: seq<seq<Sym>>)
      modifies this`events
      ensures events == old(events) + TypeEvents(backends, runs)
    {
      assert old(events) + [] == events;
      for i := 0 to |runs|
        invariant events == old(events) + TypeEvents(backends, runs[..i])
      {
        ghost var run := RunEvents(backends(i), Bound(backends(i), runs[i]), runs[i]);
        events := events + [Rebind(i)];
        TypeRun(backends(i), runs[i]);
        TypeEventsSnoc(backends, runs, i);
        Regroup(old(events), TypeEvents(backends, runs[..i]), [Rebind(i)]);
        Regroup(old(events), TypeEvents(backends, runs[..i]) + [Rebind(i)], run);
      }
      assert runs[..|runs|] == runs;
    }

    /** The `type` action: the runs are the best cut of the text's keysyms. */
    method Type(text: string, keysymFor: char -> Sym, backends: nat -> Backend) returns (ghost runs: seq<seq<Sym>>)
      modifies this`events
      ensures DR.BestCut(runs, Keysyms(text, keysymFor), DR.TYPE_RUN_KEYSYMS)
      ensures events == old(events) + TypeEvents(backends, runs)
    {
      var cut := DR.Cut(Keysyms(text, keysymFor), DR.TYPE_RUN_KEYSYMS);
      TypeRuns(backends, cut);
      runs := cut;
    }

    method PlanChord(backend: Backend, parts: seq<Part>) returns (p: Plan)
      ensures p == Planned(backend, parts)
    {
      var resolver := new KeyResolver(backend);
      var mods: seq<Code>, main: Option<(Code, nat)>, unresolved: Option<Sym> := [], None, None;
      for i := 0 to |parts|
        invariant resolver.Valid()
        invariant Plan(mods, main, unresolved) == Planned(backend, parts[..i])
      {
        assert parts[..i + 1][..i] == parts[..i];
        match parts[i]
        case Named(code) =>
          if IsModifier(code) {
            mods := mods + [code];
          } else {
            main, unresolved := Some((code, 0)), None;
          }
        case Spelled(sym) =>
          var hit := resolver.Resolve(sym);
          if hit.Some? {
            main, unresolved := hit, None;
          } else if sym != 0 {
            main, unresolved := None, Some(sym);
          }
      }
      assert parts[..|parts|] == parts;
      p := Plan(mods, main, unresolved);
    }

    static method FoldHeld(mods: seq<Code>, altgr: Code) returns (held: nat)
      ensures held == HeldBits(mods, altgr)
    {
      held := 0;
      for i := 0 to |mods|
        invariant held == HeldBits(mods[..i], altgr)
      {
        var sc := mods[i];
        assert mods[..i + 1][..i] == mods[..i];
        if sc == KC_SHIFT || sc == KC_SHIFT_R {
          held := if Shifted(held) then held else held + 1;
        } else if sc == KC_ALTGR || sc == altgr {
          held := if AltGred(held) then held else held + 2;
        }
      }
      assert mods[..|mods|] == mods;
    }

    method Strike(mods: seq<Code>, main: Option<(Code, nat)>, altgr: Code)
      modifies this`events
      ensures events == old(events) + Struck(mods, main, altgr)
    {
      if main.Some? {
        var held := FoldHeld(mods, altgr);
        TapKey(LevelModifiers(main.value.1, held, altgr), main.value.0);
      } else if mods != [] {
        TapKey([], mods[|mods| - 1]);
      }
    }

    /** The `key` action. */
    method Chord(backend: Backend, parts: seq<Part>)
      modifies this`events
      ensures var p := Planned(backend, parts);
              events == old(events) + KeyEvents(p, backend.bind(Asked(p)), backend.altgr)
    {
      var p := PlanChord(backend, parts);
      var bound := backend.bind(Asked(p));
      PressAll(p.mods);
      Strike(p.mods, MainKey(p, bound), backend.altgr);
      ReleaseAllBack(p.mods);
    }
  }

  function Keysyms(text: string, keysymFor: char -> Sym): (syms: seq<Sym>)
    ensures |syms| == |text| && forall i :: 0 <= i < |text| ==> syms[i] == keysymFor(text[i])
  {
    seq(|text|, i requires 0 <= i < |text| => keysymFor(text[i]))
  }

  /** The receiving end: the keys held, the run whose keymap is in force, and the keysyms read so far. */
  datatype Seat = Seat(held: set<Code>, run: nat, typed: seq<Sym>)

  predicate SeatModifier(b: Backend, code: Code) {
    IsModifier(code) || (b.altgr != 0 && code == b.altgr)
  }

  /** A press of anything but a modifier reads a keysym at the level the held keys make. */
  function Received(backends: nat -> Backend, seat: Seat, e: Event): Seat {
    var b := backends(seat.run);
    match e
    case Rebind(run) => seat.(run := run)
    case Key(code, false) => seat.(held := seat.held - {code})
    case Key(code, true) =>
      if SeatModifier(b, code) then seat.(held := seat.held + {code})
      else seat.(held := seat.held + {code}, typed := seat.typed + [b.keymap(code, Mask(seat.held, b.altgr))])
  }

  function ReceivedAll(backends: nat -> Backend, seat: Seat, events: seq<Event>): Seat {
    if events == [] then seat
    else Received(backends, ReceivedAll(backends, seat, events[..|events| - 1]), events[|events| - 1])
  }

  lemma {:induction false} ReceivedConcat(backends: nat -> Backend, seat: Seat, a: seq<Event>, b: seq<Event>)
    ensures ReceivedAll(backends, seat, a + b) == ReceivedAll(backends, ReceivedAll(backends, seat, a), b)
  {
    if b == [] {
      assert a + b == a;
    } else {
      ReceivedConcat(backends, seat, a, b[..|b| - 1]);
      assert (a + b)[..|a + b| - 1] == a + b[..|b| - 1];
    }
  }

  function CodeSet(codes: seq<Code>): set<Code> {
    set c | c in codes
  }

  /** Pressing modifiers only holds them. */
  lemma {:induction false} PressedHolds(backends: nat -> Backend, seat: Seat, codes: seq<Code>)
    requires forall c :: c in codes ==> SeatModifier(backends(seat.run), c)
    ensures ReceivedAll(backends, seat, Pressed(codes)) == seat.(held := seat.held + CodeSet(codes))
  {
    if codes != [] {
      var n := |codes| - 1;
      PressedHolds(backends, seat, codes[..n]);
      assert Pressed(codes)[..n] == Pressed(codes[..n]);
      assert CodeSet(codes) == CodeSet(codes[..n]) + {codes[n]} by {
        assert codes == codes[..n] + [codes[n]];
      }
    }
  }

  lemma {:induction false} ReleasedBackFrees(backends: nat -> Backend, seat: Seat, codes: seq<Code>)
    ensures ReceivedAll(backends, seat, ReleasedBack(codes)) == seat.(held := seat.held - CodeSet(codes))
  {
    if codes != [] {
      var tail := codes[1..];
      ReleasedBackFrees(backends, seat, tail);
      assert ReleasedBack(codes)[..|tail|] == ReleasedBack(tail);
      assert CodeSet(codes) == CodeSet(tail) + {codes[0]} by {
        assert codes == [codes[0]] + tail;
      }
    }
  }

  /** What a sound keymap promises of a place for `sym`. */
  predicate Types(b: Backend, code: Code, level: nat, sym: Sym) {
    && !SeatModifier(b, code)
    && level < 4 && b.keymap(code, level) == sym
    && b.altgr != KC_SHIFT && b.altgr != KC_SHIFT_R && (AltGred(level) ==> b.altgr != 0)
  }

  lemma LevelModifiersMask(level: nat, altgr: Code)
    requires level < 4 && altgr != KC_SHIFT && altgr != KC_SHIFT_R && (AltGred(level) ==> altgr != 0)
    ensures Mask(CodeSet(LevelModifiers(level, 0, altgr)), altgr) == level
  {
    var mods := LevelModifiers(level, 0, altgr);
    assert KC_SHIFT in mods <==> Shifted(level);
    assert altgr != 0 ==> (altgr in mods <==> AltGred(level));
    assert KC_SHIFT_R !in mods;
  }

  lemma TapTypes(backends: nat -> Backend, seat: Seat, code: Code, level: nat, sym: Sym)
    requires seat.held == {} && Types(backends(seat.run), code, level, sym)
    ensures var altgr := backends(seat.run).altgr;
            ReceivedAll(backends, seat, Tap(LevelModifiers(level, 0, altgr), code)) == seat.(typed := seat.typed + [sym])
  {
    var b := backends(seat.run);
    var mods := LevelModifiers(level, 0, b.altgr);
    var press, release := Event.Key(code, true), Event.Key(code, false);
    var s1 := ReceivedAll(backends, seat, Pressed(mods));
    PressedHolds(backends, seat, mods);
    assert s1.held == CodeSet(mods);
    LevelModifiersMask(level, b.altgr);
    ReceivedConcat(backends, seat, Pressed(mods), [press, release]);
    assert [press, release][..1] == [press] && [press][..0] == [];
    var s2 := ReceivedAll(backends, s1, [press, release]);
    assert s2 == Received(backends, ReceivedAll(backends, s1, [press]), release);
    assert ReceivedAll(backends, s1, [press]) == Received(backends, s1, press);
    assert s2.held == s1.held - {code} && s2.typed == seat.typed + [sym] && s2.run == seat.run;
    ReceivedConcat(backends, seat, Pressed(mods) + [press, release], ReleasedBack(mods));
    ReleasedBackFrees(backends, s2, mods);
    assert s2.held - CodeSet(mods) == {};
  }

  /** The assumption on a run: places are sound, the keymap's and the transient binds'. */
  ghost predicate Sound(b: Backend, bound: map<Sym, Code>, syms: seq<Sym>) {
    forall s :: s in syms && Place(b, bound, s).Some? ==>
      Types(b, Place(b, bound, s).value.0, Place(b, bound, s).value.1, s)
  }

  /** The keysyms of a run that have a place. */
  function Placed(b: Backend, bound: map<Sym, Code>, syms: seq<Sym>): seq<Sym> {
    if syms == [] then []
    else
      var before, s := Placed(b, bound, syms[..|syms| - 1]), syms[|syms| - 1];
      if Place(b, bound, s).Some? then before + [s] else before
  }

  lemma SymTypes(backends: nat -> Backend, seat: Seat, bound: map<Sym, Code>, sym: Sym)
    requires seat.held == {} && Sound(backends(seat.run), bound, [sym])
    ensures var b := backends(seat.run);
            ReceivedAll(backends, seat, SymEvents(b, bound, sym)) ==
            seat.(typed := if Place(b, bound, sym).Some? then seat.typed + [sym] else seat.typed)
  {
    assert sym in [sym];
    match Place(backends(seat.run), bound, sym)
    case Some((code, level)) => TapTypes(backends, seat, code, level, sym);
    case None =>
  }

  lemma {:induction false} RunTypes(backends: nat -> Backend, seat: Seat, bound: map<Sym, Code>, syms: seq<Sym>)
    requires seat.held == {} && Sound(backends(seat.run), bound, syms)
    ensures var b := backends(seat.run);
            ReceivedAll(backends, seat, RunEvents(b, bound, syms)) == seat.(typed := seat.typed + Placed(b, bound, syms))
  {
    var b := backends(seat.run);
    if syms == [] {
      assert seat.typed + [] == seat.typed;
    } else {
      var front, sym := syms[..|syms| - 1], syms[|syms| - 1];
      assert forall s :: s in front ==> s in syms;
      RunTypes(backends, seat, bound, front);
      ReceivedConcat(backends, seat, RunEvents(b, bound, front), SymEvents(b, bound, sym));
      SymTypes(backends, seat.(typed := seat.typed + Placed(b, bound, front)), bound, sym);
      RegroupSyms(seat.typed, Placed(b, bound, front), [sym]);
    }
  }

  lemma RegroupSyms(a: seq<Sym>, b: seq<Sym>, c: seq<Sym>)
    ensures a + b + c == a + (b + c)
  {
  }

  ghost predicate AllSound(backends: nat -> Backend, runs: seq<seq<Sym>>) {
    forall k: nat :: k < |runs| ==> Sound(backends(k), Bound(backends(k), runs[k]), runs[k])
  }

  function AllPlaced(backends: nat -> Backend, runs: seq<seq<Sym>>): seq<Sym> {
    if runs == [] then []
    else
      var n := |runs| - 1;
      AllPlaced(backends, runs[..n]) + Placed(backends(n), Bound(backends(n), runs[n]), runs[n])
  }

  /** One run, from the change of keymap that starts it. */
  lemma ReboundTypes(backends: nat -> Backend, seat: Seat, n: nat, bound: map<Sym, Code>, syms: seq<Sym>)
    requires seat.held == {} && Sound(backends(n), bound, syms)
    ensures ReceivedAll(backends, seat, [Rebind(n)] + RunEvents(backends(n), bound, syms)) ==
            Seat({}, n, seat.typed + Placed(backends(n), bound, syms))
  {
    ReceivedConcat(backends, seat, [Rebind(n)], RunEvents(backends(n), bound, syms));
    assert [Rebind(n)][..0] == [];
    assert ReceivedAll(backends, seat, [Rebind(n)]) == seat.(run := n);
    RunTypes(backends, seat.(run := n), bound, syms);
  }

  lemma {:induction false} RunsType(backends: nat -> Backend, seat: Seat, runs: seq<seq<Sym>>)
    requires seat.held == {} && AllSound(backends, runs)
    ensures var after := ReceivedAll(backends, seat, TypeEvents(backends, runs));
            after.held == {} && after.typed == seat.typed + AllPlaced(backends, runs)
  {
    if runs == [] {
      assert seat.typed + [] == seat.typed;
    } else {
      var n := |runs| - 1;
      var front := TypeEvents(backends, runs[..n]);
      var b, bound := backends(n), Bound(backends(n), runs[n]);
      RunsType(backends, seat, runs[..n]);
      Regroup(front, [Rebind(n)], RunEvents(b, bound, runs[n]));
      ReceivedConcat(backends, seat, front, [Rebind(n)] + RunEvents(b, bound, runs[n]));
      ReboundTypes(backends, ReceivedAll(backends, seat, front), n, bound, runs[n]);
      RegroupSyms(seat.typed, AllPlaced(backends, runs[..n]), Placed(b, bound, runs[n]));
    }
  }

  /** The keysyms of `syms` among `placeable`. */
  function Among(syms: seq<Sym>, placeable: set<Sym>): seq<Sym> {
    if syms == [] then []
    else
      var before, s := Among(syms[..|syms| - 1], placeable), syms[|syms| - 1];
      if s in placeable then before + [s] else before
  }

  lemma {:induction false} AmongConcat(a: seq<Sym>, b: seq<Sym>, placeable: set<Sym>)
    ensures Among(a + b, placeable) == Among(a, placeable) + Among(b, placeable)
  {
    if b == [] {
      assert a + b == a;
    } else {
      AmongConcat(a, b[..|b| - 1], placeable);
      assert (a + b)[..|a + b| - 1] == a + b[..|b| - 1];
    }
  }

  /** Run by run, a keysym has a place exactly where it is `placeable`. */
  ghost predicate PlacesExactly(backends: nat -> Backend, runs: seq<seq<Sym>>, placeable: set<Sym>) {
    forall k: nat, s :: k < |runs| && s in runs[k] ==>
      (Place(backends(k), Bound(backends(k), runs[k]), s).Some? <==> s in placeable)
  }

  lemma {:induction false} PlacedIsAmong(b: Backend, bound: map<Sym, Code>, syms: seq<Sym>, placeable: set<Sym>)
    requires forall s :: s in syms ==> (Place(b, bound, s).Some? <==> s in placeable)
    ensures Placed(b, bound, syms) == Among(syms, placeable)
  {
    if syms != [] {
      assert forall s :: s in syms[..|syms| - 1] ==> s in syms;
      PlacedIsAmong(b, bound, syms[..|syms| - 1], placeable);
    }
  }

  lemma {:induction false} AllPlacedIsAmong(backends: nat -> Backend, runs: seq<seq<Sym>>, placeable: set<Sym>)
    requires PlacesExactly(backends, runs, placeable)
    ensures AllPlaced(backends, runs) == Among(DR.Joined(runs), placeable)
  {
    if runs != [] {
      var n := |runs| - 1;
      assert PlacesExactly(backends, runs[..n], placeable) by {
        forall k: nat, s | k < n && s in runs[..n][k]
          ensures Place(backends(k), Bound(backends(k), runs[..n][k]), s).Some? <==> s in placeable
        {
          assert s in runs[k];
        }
      }
      AllPlacedIsAmong(backends, runs[..n], placeable);
      PlacedIsAmong(backends(n), Bound(backends(n), runs[n]), runs[n], placeable);
      AmongConcat(DR.Joined(runs[..n]), runs[n], placeable);
    }
  }

  /**
   What a `type` request's events type, under the keymap each run finds: the text's placeable
   keysyms, in order and with repeats, and nothing is held at the end.
   */
  lemma {:induction false} TypeTypesTheText(backends: nat -> Backend, syms: seq<Sym>, runs: seq<seq<Sym>>, placeable: set<Sym>)
    requires DR.BestCut(runs, syms, DR.TYPE_RUN_KEYSYMS)
    requires AllSound(backends, runs) && PlacesExactly(backends, runs, placeable)
    ensures var after := ReceivedAll(backends, Seat({}, 0, []), TypeEvents(backends, runs));
            after.held == {} && after.typed == Among(syms, placeable)
  {
    RunsType(backends, Seat({}, 0, []), runs);
    AllPlacedIsAmong(backends, runs, placeable);
  }

  /** Presses hold at most what they name, whatever the keys are. */
  lemma {:induction false} PressedHoldsAtMost(backends: nat -> Backend, seat: Seat, codes: seq<Code>)
    ensures var after := ReceivedAll(backends, seat, Pressed(codes));
            after.held == seat.held + CodeSet(codes) && after.run == seat.run
  {
    if codes != [] {
      var n := |codes| - 1;
      PressedHoldsAtMost(backends, seat, codes[..n]);
      assert Pressed(codes)[..n] == Pressed(codes[..n]);
      assert CodeSet(codes) == CodeSet(codes[..n]) + {codes[n]} by {
        assert codes == codes[..n] + [codes[n]];
      }
    }
  }

  /** A tap never leaves a key held that was not held before. */
  lemma TapBalances(backends: nat -> Backend, seat: Seat, mods: seq<Code>, code: Code)
    ensures ReceivedAll(backends, seat, Tap(mods, code)).held <= seat.held
  {
    var press, release := Event.Key(code, true), Event.Key(code, false);
    PressedHoldsAtMost(backends, seat, mods);
    var s1 := ReceivedAll(backends, seat, Pressed(mods));
    ReceivedConcat(backends, seat, Pressed(mods), [press, release]);
    assert [press, release][..1] == [press] && [press][..0] == [];
    assert ReceivedAll(backends, s1, [press]) == Received(backends, s1, press);
    var s2 := ReceivedAll(backends, s1, [press, release]);
    assert s2 == Received(backends, ReceivedAll(backends, s1, [press]), release);
    ReceivedConcat(backends, seat, Pressed(mods) + [press, release], ReleasedBack(mods));
    ReleasedBackFrees(backends, s2, mods);
  }

  /** Whatever a `key` request spells, and wherever its keys are, nothing is held once it is done. */
  lemma KeyHoldsNothing(backends: nat -> Backend, p: Plan, bound: map<Sym, Code>, altgr: Code)
    ensures ReceivedAll(backends, Seat({}, 0, []), KeyEvents(p, bound, altgr)).held == {}
  {
    var start := Seat({}, 0, []);
    var main := MainKey(p, bound);
    var inner := Struck(p.mods, main, altgr);
    PressedHoldsAtMost(backends, start, p.mods);
    var s1 := ReceivedAll(backends, start, Pressed(p.mods));
    ReceivedConcat(backends, start, Pressed(p.mods), inner);
    if main.Some? {
      TapBalances(backends, s1, LevelModifiers(main.value.1, HeldBits(p.mods, altgr), altgr), main.value.0);
    } else if p.mods != [] {
      TapBalances(backends, s1, [], p.mods[|p.mods| - 1]);
    }
    var s2 := ReceivedAll(backends, s1, inner);
    assert s2.held <= CodeSet(p.mods);
    ReceivedConcat(backends, start, Pressed(p.mods) + inner, ReleasedBack(p.mods));
    ReleasedBackFrees(backends, s2, p.mods);
  }

  /** What is held when a chord's main key goes down. */
  function ChordHeld(mods: seq<Code>, level: nat, altgr: Code): set<Code> {
    CodeSet(mods) + CodeSet(LevelModifiers(level, HeldBits(mods, altgr), altgr))
  }

  lemma {:induction false} HeldBitsAre(mods: seq<Code>, altgr: Code)
    requires altgr != KC_SHIFT && altgr != KC_SHIFT_R
    ensures HeldBits(mods, altgr) < 4
    ensures Shifted(HeldBits(mods, altgr)) <==> KC_SHIFT in mods || KC_SHIFT_R in mods
    ensures AltGred(HeldBits(mods, altgr)) <==> KC_ALTGR in mods || altgr in mods
  {
    if mods != [] {
      var n := |mods| - 1;
      HeldBitsAre(mods[..n], altgr);
      assert mods == mods[..n] + [mods[n]];
    }
  }

  lemma {:induction false} PlannedMods(b: Backend, parts: seq<Part>)
    ensures forall c :: c in Planned(b, parts).mods ==> IsModifier(c)
  {
    if parts != [] {
      PlannedMods(b, parts[..|parts| - 1]);
    }
  }

  /** What is held when a chord's main key goes down, on the keyboard that receives it. */
  lemma ChordPresses(backends: nat -> Backend, mods: seq<Code>, code: Code, level: nat)
    requires forall c :: c in mods ==> IsModifier(c)
    ensures var altgr := backends(0).altgr;
            var added := LevelModifiers(level, HeldBits(mods, altgr), altgr);
            ReceivedAll(backends, Seat({}, 0, []), Pressed(mods) + Pressed(added)) == Seat(ChordHeld(mods, level, altgr), 0, [])
  {
    var altgr := backends(0).altgr;
    var added := LevelModifiers(level, HeldBits(mods, altgr), altgr);
    ReceivedConcat(backends, Seat({}, 0, []), Pressed(mods), Pressed(added));
    PressedHolds(backends, Seat({}, 0, []), mods);
    assert {} + CodeSet(mods) == CodeSet(mods);
    LevelModifiersModify(backends(0), level, HeldBits(mods, altgr));
    PressedHolds(backends, Seat(CodeSet(mods), 0, []), added);
  }

  lemma LevelModifiersModify(b: Backend, level: nat, held: nat)
    ensures forall c :: c in LevelModifiers(level, held, b.altgr) ==> SeatModifier(b, c)
  {
  }

  lemma ReleasesTypeNothing(backends: nat -> Backend, seat: Seat, code: Code, mods: seq<Code>)
    ensures ReceivedAll(backends, seat, [Event.Key(code, false)] + ReleasedBack(mods)).typed == seat.typed
  {
    var release := Event.Key(code, false);
    ReceivedConcat(backends, seat, [release], ReleasedBack(mods));
    assert [release][..0] == [];
    assert ReceivedAll(backends, seat, [release]) == Received(backends, seat, release);
    ReleasedBackFrees(backends, ReceivedAll(backends, seat, [release]), mods);
  }

  lemma KeyEventsRegrouped(mods: seq<Code>, added: seq<Code>, code: Code)
    ensures Pressed(mods) + Tap(added, code) + ReleasedBack(mods) ==
      (Pressed(mods) + Pressed(added)) + [Event.Key(code, true)] + ([Event.Key(code, false)] + ReleasedBack(added)) + ReleasedBack(mods)
  {
  }

  /** A chord types one keysym: its key's, at the level of what is held when the key goes down. */
  lemma ChordTypes(backends: nat -> Backend, p: Plan, bound: map<Sym, Code>, code: Code, level: nat)
    requires MainKey(p, bound) == Some((code, level)) && !SeatModifier(backends(0), code)
    requires forall c :: c in p.mods ==> IsModifier(c)
    ensures var b := backends(0);
            ReceivedAll(backends, Seat({}, 0, []), KeyEvents(p, bound, b.altgr)).typed ==
            [b.keymap(code, Mask(ChordHeld(p.mods, level, b.altgr), b.altgr))]
  {
    var b, start, press := backends(0), Seat({}, 0, []), Event.Key(code, true);
    var added := LevelModifiers(level, HeldBits(p.mods, b.altgr), b.altgr);
    var before, after := Pressed(p.mods) + Pressed(added), [Event.Key(code, false)] + ReleasedBack(added);
    KeyEventsRegrouped(p.mods, added, code);
    ChordPresses(backends, p.mods, code, level);
    ReceivedConcat(backends, start, before, [press]);
    assert [press][..0] == [];
    var s1 := ReceivedAll(backends, start, before + [press]);
    assert s1 == Received(backends, ReceivedAll(backends, start, before), press);
    ReceivedConcat(backends, start, before + [press], after);
    ReleasesTypeNothing(backends, s1, code, added);
    ReceivedConcat(backends, start, before + [press] + after, ReleasedBack(p.mods));
    ReleasedBackFrees(backends, ReceivedAll(backends, s1, after), p.mods);
  }

  /** The level a chord asks for: its key's own, and what its Shift and AltGr add. */
  function Wanted(level: nat, mods: seq<Code>, altgr: Code): nat {
    (if Shifted(level) || KC_SHIFT in mods || KC_SHIFT_R in mods then 1 else 0) +
    (if AltGred(level) || (altgr != 0 && altgr in mods) then 2 else 0)
  }

  /** Right Alt, which is not AltGr here, stands for the AltGr the key's level needs. */
  predicate RightAltHides(level: nat, mods: seq<Code>, altgr: Code) {
    AltGred(level) && KC_ALTGR in mods && altgr !in mods
  }

  /**
   The level a chord reaches is the one it asks for, except where it names right Alt, the backend's
   AltGr is another key, and its key is on an AltGr level: right Alt is counted as AltGr whatever
   AltGr is, and AltGr is then not added.
   */
  lemma ChordReaches(mods: seq<Code>, level: nat, altgr: Code)
    requires level < 4 && altgr != KC_SHIFT && altgr != KC_SHIFT_R && (AltGred(level) ==> altgr != 0)
    ensures Mask(ChordHeld(mods, level, altgr), altgr) ==
      if RightAltHides(level, mods, altgr) then Wanted(level, mods, altgr) - 2 else Wanted(level, mods, altgr)
  {
    HeldBitsAre(mods, altgr);
    var added := LevelModifiers(level, HeldBits(mods, altgr), altgr);
    assert KC_SHIFT in added <==> Shifted(level) && !Shifted(HeldBits(mods, altgr));
    assert altgr in added <==> AltGred(level) && !AltGred(HeldBits(mods, altgr)) && altgr != 0;
    assert KC_SHIFT_R !in added;
  }

  /**
   So a `key` request with a key types the keysym it asks for, if and only if right Alt does not
   hide AltGr, where the keymap tells the two levels apart.
   */
  lemma ChordTypesWhatItAsks(backends: nat -> Backend, parts: seq<Part>, code: Code, level: nat)
    requires var b := backends(0);
             var p := Planned(b, parts);
             && MainKey(p, b.bind(Asked(p))) == Some((code, level)) && !SeatModifier(b, code)
             && level < 4 && b.altgr != KC_SHIFT && b.altgr != KC_SHIFT_R && (AltGred(level) ==> b.altgr != 0)
    ensures var b := backends(0);
            var p := Planned(b, parts);
            var typed := ReceivedAll(backends, Seat({}, 0, []), KeyEvents(p, b.bind(Asked(p)), b.altgr)).typed;
            var wanted := Wanted(level, p.mods, b.altgr);
            && (!RightAltHides(level, p.mods, b.altgr) ==> typed == [b.keymap(code, wanted)])
            && (RightAltHides(level, p.mods, b.altgr) ==> typed == [b.keymap(code, wanted - 2)])
            && (typed == [b.keymap(code, wanted)] <==>
                  !RightAltHides(level, p.mods, b.altgr) || b.keymap(code, wanted - 2) == b.keymap(code, wanted))
  {
    var b := backends(0);
    var p := Planned(b, parts);
    PlannedMods(b, parts);
    ChordTypes(backends, p, b.bind(Asked(p)), code, level);
    ChordReaches(p.mods, level, b.altgr);
  }

  /** A desktop whose AltGr is key 92 and whose key 26 is an e, and the euro sign with AltGr. */
  function EuroBackend(): Backend {
    Backend(
      sym => if sym == 0x20AC then (26, 2) else (0, 0),
      syms => map[],
      (code: Code, level: nat) => if code == 26 && AltGred(level) then 0x20AC else 0x65,
      92)
  }

  const EURO_CHORD: seq<Part> := [Named(108), Spelled(0x20AC)]

  lemma EuroPlanned()
    ensures Planned(EuroBackend(), EURO_CHORD) == Plan([KC_ALTGR], Some((26, 2)), None)
  {
    var b := EuroBackend();
    assert EURO_CHORD[..1] == [Named(KC_ALTGR)] && [Named(KC_ALTGR)][..0] == [];
    assert Planned(b, []) == Plan([], None, None);
    assert Planned(b, [Named(KC_ALTGR)]) == Plan([] + [KC_ALTGR], None, None);
  }

  lemma EuroKeymap()
    ensures var b := EuroBackend();
      b.altgr == 92 && !SeatModifier(b, 26) && b.keymap(26, 2) == 0x20AC && b.keymap(26, 0) == 0x65
  {
  }

  lemma EuroLevel()
    ensures AltGred(2) && Wanted(2, [KC_ALTGR], 92) == 2 && RightAltHides(2, [KC_ALTGR], 92)
  {
    assert KC_ALTGR in [KC_ALTGR] && 92 !in [KC_ALTGR];
  }

  /** A chord that types an e for the euro sign it asks for: right Alt and the sign. */
  lemma RightAltHidesAltGr(backends: nat -> Backend)
    requires backends(0) == EuroBackend()
    ensures var b := backends(0);
            var p := Planned(b, EURO_CHORD);
            && b.keymap(26, Wanted(2, p.mods, b.altgr)) == 0x20AC
            && ReceivedAll(backends, Seat({}, 0, []), KeyEvents(p, b.bind(Asked(p)), b.altgr)).typed == [0x65]
  {
    EuroPlanned();
    EuroKeymap();
    EuroLevel();
    ChordTypesWhatItAsks(backends, EURO_CHORD, 26, 2);
  }

  // ----- what a chord asks for, read off its parts

  /** Control, Shift, Alt and Super, left and right, AltGr as the right Alt. */
  predicate NamesModifier(part: Part) {
    part.Named? && part.code in {37, 105, 50, 62, 64, 108, 133, 134}
  }

  /** A part that asks for a key: any other named key, or a spelling that is a keysym. */
  predicate NamesKey(part: Part) {
    match part
    case Named(_) => !NamesModifier(part)
    case Spelled(sym) => sym != 0
  }

  /** Part `at` is the last that asks for a key. */
  predicate LastKey(parts: seq<Part>, at: nat) {
    at < |parts| && NamesKey(parts[at]) && forall i :: at < i < |parts| ==> !NamesKey(parts[i])
  }

  /** `at` lists the parts that name modifiers, in order, and all of them. */
  predicate ListsModifiers(parts: seq<Part>, at: seq<nat>) {
    && (forall k :: 0 <= k < |at| ==> at[k] < |parts| && NamesModifier(parts[at[k]]))
    && (forall k, m :: 0 <= k < m < |at| ==> at[k] < at[m])
    && (forall i :: 0 <= i < |parts| && NamesModifier(parts[i]) ==> i in at)
  }

  /** `mods` are the codes of the parts `at`. */
  predicate CodesOf(mods: seq<Code>, parts: seq<Part>, at: seq<nat>) {
    && |mods| == |at|
    && forall k :: 0 <= k < |at| ==> at[k] < |parts| && parts[at[k]].Named? && mods[k] == parts[at[k]].code
  }

  lemma ListsOneMore(parts: seq<Part>, before: seq<nat>)
    requires parts != [] && ListsModifiers(parts[..|parts| - 1], before)
    ensures ListsModifiers(parts, if NamesModifier(parts[|parts| - 1]) then before + [|parts| - 1] else before)
  {
    var n := |parts| - 1;
    var at := if NamesModifier(parts[n]) then before + [n] else before;
    forall i | 0 <= i < |parts| && NamesModifier(parts[i]) ensures i in at {
      if i < n {
        assert parts[..n][i] == parts[i] && i in before;
      } else {
        assert at[|before|] == n;
      }
    }
  }

  lemma CodesOneMore(mods: seq<Code>, parts: seq<Part>, before: seq<nat>)
    requires parts != [] && CodesOf(mods, parts[..|parts| - 1], before)
    ensures CodesOf(mods, parts, before)
    ensures var last := parts[|parts| - 1]; last.Named? ==> CodesOf(mods + [last.code], parts, before + [|parts| - 1])
  {
  }

  lemma PlannedOneMore(b: Backend, parts: seq<Part>)
    requires parts != []
    ensures var p, q, last := Planned(b, parts[..|parts| - 1]), Planned(b, parts), parts[|parts| - 1];
            && q.mods == (if NamesModifier(last) then p.mods + [last.code] else p.mods)
            && (!NamesKey(last) ==> q.main == p.main && q.unresolved == p.unresolved)
  {
  }

  /** A chord holds every modifier it names, in the order it names them, and no other. */
  lemma {:induction false} ModifiersExactly(b: Backend, parts: seq<Part>) returns (at: seq<nat>)
    ensures ListsModifiers(parts, at) && CodesOf(Planned(b, parts).mods, parts, at)
  {
    if parts == [] {
      at := [];
    } else {
      var n := |parts| - 1;
      var before := ModifiersExactly(b, parts[..n]);
      at := if NamesModifier(parts[n]) then before + [n] else before;
      ListsOneMore(parts, before);
      PlannedOneMore(b, parts);
      CodesOneMore(Planned(b, parts[..n]).mods, parts, before);
    }
  }

  /**
   The key a chord taps is what its last key part asks for: a named key plainly, a spelling where
   the keymap has it, else where the desktop binds it for the request, else none.
   */
  lemma {:induction false} LastKeyCounts(b: Backend, parts: seq<Part>, at: nat)
    requires LastKey(parts, at)
    ensures var p := Planned(b, parts);
            var key := MainKey(p, b.bind(Asked(p)));
            match parts[at]
            case Named(code) => key == Some((code, 0))
            case Spelled(sym) =>
              if b.resolve(sym).0 != 0 then key == Some(b.resolve(sym))
              else if sym in b.bind([sym]) then key == Some((b.bind([sym])[sym], 0))
              else key == None
  {
    var n := |parts| - 1;
    if at < n {
      assert LastKey(parts[..n], at);
      LastKeyCounts(b, parts[..n], at);
      PlannedOneMore(b, parts);
    }
  }

  /** Without such a part there is no key. */
  lemma {:induction false} NoKeyNamed(b: Backend, parts: seq<Part>)
    requires forall part :: part in parts ==> !NamesKey(part)
    ensures Planned(b, parts).main == None && Planned(b, parts).unresolved == None
  {
    if parts != [] {
      assert forall part :: part in parts[..|parts| - 1] ==> part in parts;
      NoKeyNamed(b, parts[..|parts| - 1]);
      PlannedOneMore(b, parts);
    }
  }

  /** Events that go down and back up: each press in the first half has its release at the mirrored place. */
  predicate Mirrored(events: seq<Event>) {
    forall i :: 0 <= i < |events| / 2 ==>
      events[i].Key? && events[i].pressed && events[|events| - 1 - i] == Event.Key(events[i].code, false)
  }

  lemma TapMirrored(mods: seq<Code>, code: Code)
    ensures var tap := Tap(mods, code);
            && |tap| == 2 * |mods| + 2 && Mirrored(tap)
            && (forall i :: 0 <= i < |mods| ==> tap[i] == Event.Key(mods[i], true))
            && tap[|mods|] == Event.Key(code, true)
  {
  }

  lemma WrappedMirrored(mods: seq<Code>, inner: seq<Event>)
    requires Mirrored(inner) && |inner| % 2 == 0
    ensures Mirrored(Pressed(mods) + inner + ReleasedBack(mods))
  {
    var events := Pressed(mods) + inner + ReleasedBack(mods);
    forall i | 0 <= i < |events| / 2
      ensures events[i].Key? && events[i].pressed && events[|events| - 1 - i] == Event.Key(events[i].code, false)
    {
      if i >= |mods| {
        var k := i - |mods|;
        assert events[i] == inner[k] && events[|events| - 1 - i] == inner[|inner| - 1 - k];
      }
    }
  }

  /**
   A chord presses its modifiers in order, then those its key's level still needs and the key, or
   its last modifier once more where it has no key, and releases all of it the way it came.
   */
  lemma {:induction false} ChordGoesDownAndUp(p: Plan, bound: map<Sym, Code>, altgr: Code)
    ensures var events, key := KeyEvents(p, bound, altgr), MainKey(p, bound);
            && |events| % 2 == 0 && Mirrored(events)
            && |events| >= 2 * |p.mods| && (forall i :: 0 <= i < |p.mods| ==> events[i] == Event.Key(p.mods[i], true))
            && (key.Some? ==> |events| >= 2 && events[|events| / 2 - 1] == Event.Key(key.value.0, true))
            && (key.None? && p.mods != [] ==>
                  && |events| == 2 * |p.mods| + 2
                  && events[|p.mods|] == Event.Key(p.mods[|p.mods| - 1], true))
            && (key.None? && p.mods == [] ==> events == [])
  {
    var key := MainKey(p, bound);
    var inner := Struck(p.mods, key, altgr);
    if key.Some? {
      TapMirrored(LevelModifiers(key.value.1, HeldBits(p.mods, altgr), altgr), key.value.0);
    } else if p.mods != [] {
      TapMirrored([], p.mods[|p.mods| - 1]);
    }
    WrappedMirrored(p.mods, inner);
  }

  /** A chord of modifiers alone types nothing. */
  lemma {:induction false} ModifiersTypeNothing(backends: nat -> Backend, parts: seq<Part>)
    requires forall part :: part in parts ==> !NamesKey(part)
    ensures var b := backends(0);
            var p := Planned(b, parts);
            ReceivedAll(backends, Seat({}, 0, []), KeyEvents(p, b.bind(Asked(p)), b.altgr)) == Seat({}, 0, [])
  {
    var b, start := backends(0), Seat({}, 0, []);
    var p := Planned(b, parts);
    NoKeyNamed(b, parts);
    PlannedMods(b, parts);
    var inner := Struck(p.mods, None, b.altgr);
    PressedHolds(backends, start, p.mods);
    var s1 := ReceivedAll(backends, start, Pressed(p.mods));
    ReceivedConcat(backends, start, Pressed(p.mods), inner);
    if p.mods != [] {
      LastModifierAgain(backends, s1, p.mods[|p.mods| - 1]);
    }
    ReceivedConcat(backends, start, Pressed(p.mods) + inner, ReleasedBack(p.mods));
    ReleasedBackFrees(backends, ReceivedAll(backends, s1, inner), p.mods);
  }

  lemma LastModifierAgain(backends: nat -> Backend, seat: Seat, code: Code)
    requires IsModifier(code)
    ensures var after := ReceivedAll(backends, seat, Tap([], code));
            after.held <= seat.held && after.typed == seat.typed && after.run == seat.run
  {
    var press, release := Event.Key(code, true), Event.Key(code, false);
    assert Tap([], code) == [press, release];
    assert [press, release][..1] == [press] && [press][..0] == [];
    assert ReceivedAll(backends, seat, [press]) == Received(backends, seat, press);
    assert ReceivedAll(backends, seat, [press, release]) == Received(backends, ReceivedAll(backends, seat, [press]), release);
  }

  // ----- what a run asks the desktop to bind

  predicate Lacks(b: Backend, sym: Sym) {
    sym != 0 && b.resolve(sym).0 == 0
  }

  /** `x` comes in `syms` before any `y` does. */
  predicate ComesBefore(syms: seq<Sym>, x: Sym, y: Sym) {
    exists k :: 0 <= k < |syms| && syms[k] == x && y !in syms[..k + 1]
  }

  /** Exactly the keysyms the keymap lacks are asked for, each once, in the order they first come. */
  lemma {:induction false} UnresolvedExactly(b: Backend, syms: seq<Sym>)
    ensures var u := Unresolved(b, syms);
            && (forall s :: s in u <==> s in syms && Lacks(b, s))
            && (forall i, j :: 0 <= i < j < |u| ==> u[i] != u[j] && ComesBefore(syms, u[i], u[j]))
  {
    if syms != [] {
      var n := |syms| - 1;
      var front, u, before := syms[..n], Unresolved(b, syms), Unresolved(b, syms[..n]);
      UnresolvedExactly(b, front);
      assert syms == front + [syms[n]];
      forall i, j | 0 <= i < j < |u| ensures u[i] != u[j] && ComesBefore(syms, u[i], u[j]) {
        assert u[i] == before[i] && before[i] in before;
        assert u[i] in front;
        if j < |before| {
          assert u[j] == before[j];
          StillBefore(front, syms[n], u[i], u[j]);
        } else {
          NewComesAfter(front, syms[n], u[i]);
        }
      }
    }
  }

  lemma StillBefore(front: seq<Sym>, last: Sym, x: Sym, y: Sym)
    requires ComesBefore(front, x, y)
    ensures ComesBefore(front + [last], x, y)
  {
    var k :| 0 <= k < |front| && front[k] == x && y !in front[..k + 1];
    assert (front + [last])[k] == x && (front + [last])[..k + 1] == front[..k + 1];
  }

  lemma NewComesAfter(front: seq<Sym>, last: Sym, x: Sym)
    requires x in front && last !in front
    ensures ComesBefore(front + [last], x, last)
  {
    var k :| 0 <= k < |front| && front[k] == x;
    assert (front + [last])[k] == x && (front + [last])[..k + 1] == front[..k + 1];
  }

  /** A desktop that binds exactly what it is asked to. */
  ghost predicate BindsAll(b: Backend) {
    forall list: seq<Sym> :: b.bind(list).Keys == set s | s in list
  }

  lemma EveryKeysymHasAPlace(b: Backend, syms: seq<Sym>, sym: Sym)
    requires BindsAll(b) && sym in syms
    ensures Place(b, Bound(b, syms), sym).Some? <==> sym != 0
  {
    UnresolvedExactly(b, syms);
    assert sym in Bound(b, syms) <==> sym in Bound(b, syms).Keys;
  }

  /** Where each run's desktop binds what it is asked to, a `type` request types every keysym of its text. */
  lemma {:induction false} BindingTypesEverything(backends: nat -> Backend, syms: seq<Sym>, runs: seq<seq<Sym>>)
    requires DR.BestCut(runs, syms, DR.TYPE_RUN_KEYSYMS)
    requires AllSound(backends, runs) && forall k: nat :: k < |runs| ==> BindsAll(backends(k))
    requires 0 !in syms
    ensures ReceivedAll(backends, Seat({}, 0, []), TypeEvents(backends, runs)).typed == syms
  {
    var all := set s | s in syms;
    assert DR.Joined(runs) == syms;
    forall k: nat, s | k < |runs| && s in runs[k]
      ensures Place(backends(k), Bound(backends(k), runs[k]), s).Some? <==> s in all
    {
      EveryKeysymHasAPlace(backends(k), runs[k], s);
      RunOf(runs, k, s);
    }
    TypeTypesTheText(backends, syms, runs, all);
    AmongAll(syms, all);
  }

  lemma {:induction false} RunOf(runs: seq<seq<Sym>>, k: nat, s: Sym)
    requires k < |runs| && s in runs[k]
    ensures s in DR.Joined(runs)
  {
    if k < |runs| - 1 {
      RunOf(runs[..|runs| - 1], k, s);
    }
  }

  lemma {:induction false} AmongAll(syms: seq<Sym>, all: set<Sym>)
    requires forall s :: s in syms ==> s in all
    ensures Among(syms, all) == syms
  {
    if syms != [] {
      assert forall s :: s in syms[..|syms| - 1] ==> s in syms;
      AmongAll(syms[..|syms| - 1], all);
    }
  }
}
