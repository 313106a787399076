module TypeWalkLevels {
  // When the walk of scripts/gen-config-catalog.ts stops for every path, counting the steps that members and
  // array steps consume against those that indexed accesses add.

  import opened TypeWalk
  import opened TypeWalkTermination

  /** How many steps may be left, up to a constant, on entering a declaration; for every declaration in reach. */
  type Levels = map<DeclId, int>

  /** Whatever is entered from the type, with at most `n` steps left at the type, is entered within its level. */
  predicate WithinLevels(w: World, levels: Levels, file: File, node: TypeNode, n: int)
    decreases node
  {
    match node
    case TypeLiteral(members) => MembersWithin(w, levels, file, members, n - 1)
    case Parenthesized(inner) => WithinLevels(w, levels, file, inner, n)
    case Operator(inner) => WithinLevels(w, levels, file, inner, n)
    case Intersection(parts) => forall i :: 0 <= i < |parts| ==> WithinLevels(w, levels, file, parts[i], n)
    case Union(parts) => forall i :: 0 <= i < |parts| ==> WithinLevels(w, levels, file, parts[i], n)
    case ArrayOf(element) => WithinLevels(w, levels, file, element, n - 1)
    case IndexedAccess(indexed, index) => index.Some? ==> WithinLevels(w, levels, file, indexed, n + 1)
    case Reference(name, qualified, args) =>
      if name in PASSTHROUGH_WRAPPERS && args != [] then WithinLevels(w, levels, file, args[0], n)
      else if name in ARRAY_NAMES && args != [] then WithinLevels(w, levels, file, args[0], n - 1)
      else qualified || NameWithin(w, levels, file, name, n)
    case OtherType => true
  }

  predicate MembersWithin(w: World, levels: Levels, file: File, members: seq<Signature>, n: int)
    decreases members
  {
    forall i :: 0 <= i < |members| && members[i].Property? && members[i].annotation.Some? ==>
      WithinLevels(w, levels, file, members[i].annotation.value, n)
  }

  predicate NameWithin(w: World, levels: Levels, file: File, name: string, n: int) {
    var d := Resolved(w, file, name);
    d.Some? ==> d.value in levels && n <= levels[d.value]
  }

  predicate DeclWithin(w: World, levels: Levels, d: DeclId)
    requires d in w.decls && d in levels
  {
    var file := w.decls[d].file;
    match w.decls[d].declaration
    case Alias(aliased) => WithinLevels(w, levels, file, aliased, levels[d])
    case Interface(members, bases) =>
      && MembersWithin(w, levels, file, members, levels[d] - 1)
      && forall i :: 0 <= i < |bases| && bases[i].Named? ==> NameWithin(w, levels, file, bases[i].name, levels[d])
  }

  /** A cycle of references within their levels adds no more steps than it consumes. */
  predicate Leveled(w: World, levels: Levels) {
    forall d :: d in levels ==> d in w.decls && DeclWithin(w, levels, d)
  }

  lemma {:induction false} TopLevel(levels: Levels, base: int) returns (top: nat)
    ensures forall d :: d in levels ==> base + levels[d] <= top
    decreases |levels|
  {
    if levels == map[] {
      top := 0;
    } else {
      var d :| d in levels;
      var rest := TopLevel(levels - {d}, base);
      top := if base + levels[d] > rest then base + levels[d] else rest;
      forall e | e in levels ensures base + levels[e] <= top {
        if e != d {
          assert e in levels - {d};
        }
      }
    }
  }

  /** The levels, and a bound on the steps left on entering any declaration. */
  ghost predicate Bounded(w: World, levels: Levels, base: int, top: nat) {
    Leveled(w, levels) && forall d :: d in levels ==> base + levels[d] <= top
  }

  lemma {:induction false} DeclEnds(w: World, levels: Levels, base: int, top: nat, d: DeclId, steps: seq<PathStep>, seen: Seen)
    returns (depth: nat)
    requires Bounded(w, levels, base, top) && d in levels && |steps| <= base + levels[d]
    ensures Lookup(w, AtDecl(d), steps, seen, depth).Some?
    decreases Unused(w, top, seen), 0, 0
  {
    if steps == [] || (d, |steps|) in seen {
      return 0;
    }
    var marked := seen + {(d, |steps|)};
    assert (d, |steps|) in Unused(w, top, seen) && (d, |steps|) !in Unused(w, top, marked);
    var file := w.decls[d].file;
    match w.decls[d].declaration
    case Alias(aliased) =>
      var n := TypeEnds(w, levels, base, top, file, aliased, levels[d], steps, marked);
      depth := n + 1;
    case Interface(members, bases) =>
      if steps[0].ArrayHop? {
        return 1;
      }
      match FindProperty(members, steps[0].name)
      case None =>
        var n := BasesEnd(w, levels, base, top, file, bases, levels[d], steps, marked);
        depth := n + 1;
      case Some(p) =>
        depth := 1;
        if |steps| > 1 && p.annotation.Some? {
          var i :| 0 <= i < |members| && members[i] == p;
          var n := TypeEnds(w, levels, base, top, file, p.annotation.value, levels[d] - 1, steps[1..], marked);
          depth := n + 1;
        }
  }

  lemma {:induction false} NameEnds(w: World, levels: Levels, base: int, top: nat, file: File, name: string, n: int,
                                    steps: seq<PathStep>, seen: Seen)
    returns (depth: nat)
    requires Bounded(w, levels, base, top) && NameWithin(w, levels, file, name, n) && |steps| <= base + n
    ensures Lookup(w, NamePlace(w, file, name), steps, seen, depth).Some?
    decreases Unused(w, top, seen), 0, 1
  {
    if Resolved(w, file, name).Some? {
      depth := DeclEnds(w, levels, base, top, Resolved(w, file, name).value, steps, seen);
    } else {
      depth := 1;
    }
  }

  lemma {:induction false} BasesEnd(w: World, levels: Levels, base: int, top: nat, file: File, bases: seq<Heritage>, n: int,
                                    steps: seq<PathStep>, seen: Seen)
    returns (depth: nat)
    requires Bounded(w, levels, base, top) && |steps| <= base + n
    requires forall i :: 0 <= i < |bases| && bases[i].Named? ==> NameWithin(w, levels, file, bases[i].name, n)
    ensures LookupAll(w, BasePlaces(w, file, bases), steps, seen, depth).Some?
    decreases Unused(w, top, seen), 0, |bases| + 2
  {
    depth := 0;
    if bases != [] {
      var places := BasePlaces(w, file, bases);
      var a: nat := 1;
      if bases[0].Named? {
        a := NameEnds(w, levels, base, top, file, bases[0].name, n, steps, seen);
      }
      SeenGrows(w, places[0], steps, seen, a);
      var first := Lookup(w, places[0], steps, seen, a).value;
      UnusedAntitone(w, top, top, seen, first.seen);
      var b := BasesEnd(w, levels, base, top, file, bases[1..], n, steps, first.seen);
      assert places[1..] == BasePlaces(w, file, bases[1..]);
      OneMoreStops(w, places, steps, seen, a, b);
      depth := if a > b then a else b;
    }
  }

  lemma {:induction false} TypeEnds(w: World, levels: Levels, base: int, top: nat, file: File, node: TypeNode, n: int,
                                    steps: seq<PathStep>, seen: Seen)
    returns (depth: nat)
    requires Bounded(w, levels, base, top) && WithinLevels(w, levels, file, node, n) && |steps| <= base + n
    ensures Lookup(w, AtType(file, node), steps, seen, depth).Some?
    decreases Unused(w, top, seen), Size(node), 0
  {
    depth := 1;
    if steps == [] {
      return;
    }
    hide Bounded;
    var m: nat := 0;
    match node {
      case TypeLiteral(members) =>
        if steps[0].Member? && FindProperty(members, steps[0].name).Some? {
          var p := FindProperty(members, steps[0].name).value;
          if |steps| > 1 && p.annotation.Some? {
            FoundMember(w, file, members, steps[0].name);
            var i :| 0 <= i < |members| && members[i] == p;
            m := TypeEnds(w, levels, base, top, file, p.annotation.value, n - 1, steps[1..], seen);
          }
        }
      case Parenthesized(inner) => m := TypeEnds(w, levels, base, top, file, inner, n, steps, seen);
      case Operator(inner) => m := TypeEnds(w, levels, base, top, file, inner, n, steps, seen);
      case Intersection(parts) => m := PartsEnd(w, levels, base, top, file, parts, n, steps, seen);
      case Union(parts) => m := PartsEnd(w, levels, base, top, file, parts, n, steps, seen);
      case ArrayOf(element) =>
        if steps[0].ArrayHop? {
          m := TypeEnds(w, levels, base, top, file, element, n - 1, steps[1..], seen);
        }
      case IndexedAccess(inside, index) =>
        if index.Some? {
          m := TypeEnds(w, levels, base, top, file, inside, n + 1, [Member(index.value)] + steps, seen);
        }
      case Reference(name, qualified, args) =>
        assert args != [] ==> PartsSize(args) == 1 + Size(args[0]) + PartsSize(args[1..]);
        if name in PASSTHROUGH_WRAPPERS && args != [] {
          m := TypeEnds(w, levels, base, top, file, args[0], n, steps, seen);
        } else if name in ARRAY_NAMES && args != [] {
          if steps[0].ArrayHop? {
            m := TypeEnds(w, levels, base, top, file, args[0], n - 1, steps[1..], seen);
          }
        } else if !qualified {
          m := NameEnds(w, levels, base, top, file, name, n, steps, seen);
        }
      case OtherType =>
    }
    depth := m + 1;
  }

  lemma {:induction false} PartsEnd(w: World, levels: Levels, base: int, top: nat, file: File, parts: seq<TypeNode>, n: int,
                                    steps: seq<PathStep>, seen: Seen)
    returns (depth: nat)
    requires Bounded(w, levels, base, top) && |steps| <= base + n
    requires forall i :: 0 <= i < |parts| ==> WithinLevels(w, levels, file, parts[i], n)
    ensures LookupAll(w, PartPlaces(file, parts), steps, seen, depth).Some?
    decreases Unused(w, top, seen), PartsSize(parts), 1
  {
    hide Bounded, WithinLevels;
    depth := 0;
    if parts != [] {
      var places := PartPlaces(file, parts);
      var a := TypeEnds(w, levels, base, top, file, parts[0], n, steps, seen);
      SeenGrows(w, places[0], steps, seen, a);
      var first := Lookup(w, places[0], steps, seen, a).value;
      UnusedAntitone(w, top, top, seen, first.seen);
      var b := PartsEnd(w, levels, base, top, file, parts[1..], n, steps, first.seen);
      assert places[1..] == PartPlaces(file, parts[1..]);
      OneMoreStops(w, places, steps, seen, a, b);
      depth := if a > b then a else b;
    }
  }

  /** With levels for everything in reach the walk stops for every path, from every guard state. */
  lemma LeveledStops(w: World, levels: Levels, id: DeclId, steps: seq<PathStep>, seen: Seen) returns (depth: nat)
    requires Leveled(w, levels) && id in levels
    ensures Lookup(w, AtDecl(id), steps, seen, depth).Some?
  {
    var base := |steps| - levels[id];
    var top := TopLevel(levels, base);
    depth := DeclEnds(w, levels, base, top, id, steps, seen);
  }

  ghost predicate HasLevels(w: World, id: DeclId) {
    exists levels :: Leveled(w, levels) && id in levels
  }
}
