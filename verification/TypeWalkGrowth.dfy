module TypeWalkGrowth {
  // Type declarations on which the walk of scripts/gen-config-catalog.ts never stops: whatever the path, it
  // comes back to the same declaration with a longer one, so the guard never fires.

  import opened Graph
  import opened TypeWalk
  import opened TypeWalkTermination

  /** A guard key: a declaration and the number of steps left on entering it. */
  type Key = (DeclId, nat)

  /** The keys a walk meets at a type with `n` steps left, whatever the steps are. */
  function Entered(w: World, file: File, node: TypeNode, n: nat): seq<Key>
    decreases node
  {
    match node
    case Parenthesized(inner) => Entered(w, file, inner, n)
    case Operator(inner) => Entered(w, file, inner, n)
    case Intersection(parts) => PartsEntered(w, file, parts, n)
    case Union(parts) => PartsEntered(w, file, parts, n)
    case IndexedAccess(indexed, index) => if index.Some? then Entered(w, file, indexed, n + 1) else []
    case Reference(name, qualified, args) =>
      if name in PASSTHROUGH_WRAPPERS && args != [] then Entered(w, file, args[0], n)
      else if (name in ARRAY_NAMES && args != []) || qualified then []
      else (match Resolved(w, file, name) case Some(id) => [(id, n)] case None => [])
    case _ => []
  }

  function PartsEntered(w: World, file: File, parts: seq<TypeNode>, n: nat): seq<Key>
    decreases parts
  {
    if parts == [] then [] else Entered(w, file, parts[0], n) + PartsEntered(w, file, parts[1..], n)
  }

  /** The keys met next from a declaration: those of an alias. An interface looks at the steps first. */
  function Next(w: World, key: Key): seq<Key> {
    if key.0 !in w.decls then []
    else match w.decls[key.0].declaration
      case Alias(aliased) => Entered(w, w.decls[key.0].file, aliased, key.1)
      case Interface(_, _) => []
  }

  function PlaceKeys(w: World, place: Place, n: nat): seq<Key> {
    match place
    case AtDecl(id) => [(id, n)]
    case AtType(file, node) => Entered(w, file, node, n)
  }

  // ---------------------------------------------------------------- a finished walk has seen them all

  ghost predicate Settled(w: World, key: Key, seen: Seen) {
    forall k :: k in Next(w, key) ==> k in seen
  }

  ghost predicate NewSettled(w: World, before: Seen, after: Seen) {
    before <= after && forall key :: key in after && key !in before ==> Settled(w, key, after)
  }

  ghost predicate KeysIn(keys: seq<Key>, seen: Seen) {
    forall k :: k in keys ==> k in seen
  }

  lemma {:induction false} PartKeys(w: World, file: File, parts: seq<TypeNode>, n: nat, seen: Seen)
    requires forall i :: 0 <= i < |parts| ==> KeysIn(Entered(w, file, parts[i], n), seen)
    ensures KeysIn(PartsEntered(w, file, parts, n), seen)
  {
    if parts != [] {
      forall i | 0 <= i < |parts[1..]| ensures KeysIn(Entered(w, file, parts[1..][i], n), seen) {
        assert parts[1..][i] == parts[i + 1];
      }
      PartKeys(w, file, parts[1..], n, seen);
    }
  }

  /** A turn that answers meets no key. */
  lemma AnswerKeys(w: World, place: Place, steps: seq<PathStep>)
    requires steps != [] && TurnAt(w, place, steps).Answer?
    ensures place.AtType? ==> PlaceKeys(w, place, |steps|) == []
    ensures place.AtDecl? ==> Next(w, (place.id, |steps|)) == []
  {
  }

  /** A turn that moves on leaves the keys to the place it moves to. */
  lemma MoveKeys(w: World, place: Place, steps: seq<PathStep>, k: Key)
    requires steps != [] && TurnAt(w, place, steps).Move?
    requires k in (if place.AtType? then PlaceKeys(w, place, |steps|) else Next(w, (place.id, |steps|)))
    ensures var t := TurnAt(w, place, steps);
      t.steps != [] && (k in PlaceKeys(w, t.place, |t.steps|))
  {
    hide PartsEntered;
  }

  lemma PartsTurnKeys(w: World, place: Place, steps: seq<PathStep>, seen: Seen)
    requires steps != []
    requires TurnAt(w, place, steps).AnyOf? || TurnAt(w, place, steps).EachOf?
    requires forall i :: 0 <= i < |TurnAt(w, place, steps).places| ==>
      KeysIn(PlaceKeys(w, TurnAt(w, place, steps).places[i], |steps|), seen)
    ensures place.AtType? ==> KeysIn(PlaceKeys(w, place, |steps|), seen)
    ensures place.AtDecl? ==> Next(w, (place.id, |steps|)) == []
  {
    if place.AtType? {
      var places := TurnAt(w, place, steps).places;
      assert forall i :: 0 <= i < |places| ==> places[i] == AtType(place.file, place.node.parts[i]);
      forall i | 0 <= i < |places| ensures KeysIn(Entered(w, place.file, place.node.parts[i], |steps|), seen) {
        assert KeysIn(PlaceKeys(w, places[i], |steps|), seen);
      }
      PartKeys(w, place.file, place.node.parts, |steps|, seen);
    }
  }

  /** The keys of a place end up in the guard, and so do those met from every key the walk added. */
  lemma {:induction false} MeetsAll(w: World, place: Place, steps: seq<PathStep>, seen: Seen, depth: nat)
    requires steps != [] && Lookup(w, place, steps, seen, depth).Some?
    ensures var after := Lookup(w, place, steps, seen, depth).value.seen;
      KeysIn(PlaceKeys(w, place, |steps|), after) && NewSettled(w, seen, after)
    decreases depth, 0
  {
    hide TurnAt, Entered, Next;
    if !Revisits(place, steps, seen) {
      var marked := Mark(place, steps, seen);
      SeenGrows(w, place, steps, seen, depth);
      var after := Lookup(w, place, steps, seen, depth).value.seen;
      match TurnAt(w, place, steps) {
        case Answer(_) => AnswerKeys(w, place, steps);
        case Move(next, rest) =>
          SeenGrows(w, next, rest, marked, depth - 1);
          if rest != [] {
            MeetsAll(w, next, rest, marked, depth - 1);
          }
          forall k | k in (if place.AtType? then PlaceKeys(w, place, |steps|) else Next(w, (place.id, |steps|)))
            ensures k in after
          {
            MoveKeys(w, place, steps, k);
          }
        case AnyOf(places) =>
          MeetsAllOf(w, places, steps, marked, depth - 1);
          PartsTurnKeys(w, place, steps, after);
        case EachOf(places) =>
          MeetsAllOf(w, places, steps, marked, depth - 1);
          PartsTurnKeys(w, place, steps, after);
      }
    }
  }

  lemma {:induction false} MeetsAllOf(w: World, places: seq<Place>, steps: seq<PathStep>, seen: Seen, depth: nat)
    requires steps != [] && LookupAll(w, places, steps, seen, depth).Some?
    ensures var after := LookupAll(w, places, steps, seen, depth).value.1;
      && (forall i :: 0 <= i < |places| ==> KeysIn(PlaceKeys(w, places[i], |steps|), after))
      && NewSettled(w, seen, after)
    decreases depth, |places| + 1
  {
    hide PlaceKeys, Settled;
    if places != [] {
      var first := Lookup(w, places[0], steps, seen, depth).value.seen;
      MeetsAll(w, places[0], steps, seen, depth);
      SeenGrowsAll(w, places[1..], steps, first, depth);
      MeetsAllOf(w, places[1..], steps, first, depth);
      var after := LookupAll(w, places, steps, seen, depth).value.1;
      forall i | 0 <= i < |places| ensures KeysIn(PlaceKeys(w, places[i], |steps|), after) {
        if i > 0 {
          assert places[i] == places[1..][i - 1];
        }
      }
      NewSettledJoin(w, seen, first, after);
    }
  }

  lemma NewSettledJoin(w: World, a: Seen, b: Seen, c: Seen)
    requires NewSettled(w, a, b) && NewSettled(w, b, c)
    ensures NewSettled(w, a, c)
  {
  }

  // ---------------------------------------------------------------- growth

  ghost predicate Leads(w: World, p: seq<Key>) {
    |p| >= 1 && forall i :: 0 <= i < |p| - 1 ==> p[i + 1] in Next(w, p[i])
  }

  ghost predicate LeadsTo(w: World, a: Key, b: Key) {
    exists p :: Leads(w, p) && p[0] == a && p[|p| - 1] == b
  }

  /** The walk comes back to some declaration with more steps than it had there before. */
  ghost predicate Grows(w: World, id: DeclId) {
    exists d: DeclId, n: nat, more: nat :: n < more && LeadsTo(w, (id, 0), (d, n)) && LeadsTo(w, (d, n), (d, more))
  }

  function Shift(key: Key, more: nat): Key {
    (key.0, key.1 + more)
  }

  lemma {:induction false} EnteredShift(w: World, file: File, node: TypeNode, n: nat, m: nat)
    ensures forall k :: k in Entered(w, file, node, n) ==> Shift(k, m) in Entered(w, file, node, n + m)
    decreases node
  {
    match node
    case Parenthesized(inner) => EnteredShift(w, file, inner, n, m);
    case Operator(inner) => EnteredShift(w, file, inner, n, m);
    case Intersection(parts) => PartsShift(w, file, parts, n, m);
    case Union(parts) => PartsShift(w, file, parts, n, m);
    case IndexedAccess(indexed, index) =>
      if index.Some? {
        EnteredShift(w, file, indexed, n + 1, m);
        assert n + 1 + m == n + m + 1;
      }
    case Reference(name, qualified, args) =>
      if name in PASSTHROUGH_WRAPPERS && args != [] {
        EnteredShift(w, file, args[0], n, m);
      }
    case _ =>
  }

  lemma {:induction false} PartsShift(w: World, file: File, parts: seq<TypeNode>, n: nat, m: nat)
    ensures forall k :: k in PartsEntered(w, file, parts, n) ==> Shift(k, m) in PartsEntered(w, file, parts, n + m)
    decreases parts
  {
    if parts != [] {
      EnteredShift(w, file, parts[0], n, m);
      PartsShift(w, file, parts[1..], n, m);
    }
  }

  lemma NextShift(w: World, key: Key, k: Key, m: nat)
    requires k in Next(w, key)
    ensures Shift(k, m) in Next(w, Shift(key, m))
  {
    hide Entered;
    var d := w.decls[key.0];
    EnteredShift(w, d.file, d.declaration.aliased, key.1, m);
  }

  /** A guard that holds a key, and everything met from what it holds, holds what the key leads to. */
  lemma {:induction false} LedInto(w: World, p: seq<Key>, m: nat, seen: Seen)
    requires Leads(w, p) && Shift(p[0], m) in seen && NewSettled(w, {}, seen)
    ensures Shift(p[|p| - 1], m) in seen
    decreases |p|
  {
    if |p| > 1 {
      assert p[0 + 1] in Next(w, p[0]);
      NextShift(w, p[0], p[1], m);
      assert Settled(w, Shift(p[0], m), seen);
      var q := p[1..];
      forall i | 0 <= i < |q| - 1 ensures q[i + 1] in Next(w, q[i]) {
        assert p[(i + 1) + 1] in Next(w, p[i + 1]);
      }
      LedInto(w, q, m, seen);
    }
  }

  lemma LedTo(w: World, a: Key, b: Key, m: nat, seen: Seen)
    requires LeadsTo(w, a, b) && Shift(a, m) in seen && NewSettled(w, {}, seen)
    ensures Shift(b, m) in seen
  {
    var p :| Leads(w, p) && p[0] == a && p[|p| - 1] == b;
    LedInto(w, p, m, seen);
  }

  lemma {:induction false} Bounded(seen: Seen) returns (top: nat)
    ensures forall key :: key in seen ==> key.1 <= top
    decreases |seen|
  {
    if seen == {} {
      top := 0;
    } else {
      var key :| key in seen;
      var rest := Bounded(seen - {key});
      top := if rest < key.1 then key.1 else rest;
      forall other | other in seen ensures other.1 <= top {
        if other != key {
          assert other in seen - {key};
        }
      }
    }
  }

  /** Each round around the growing cycle holds a larger key. */
  lemma {:induction false} RoundAndRound(w: World, d: DeclId, n: nat, more: nat, m: nat, rounds: nat, seen: Seen)
    returns (m': nat)
    requires n < more && LeadsTo(w, (d, n), (d, more)) && (d, n + m) in seen && NewSettled(w, {}, seen)
    ensures m' >= m + rounds && (d, n + m') in seen
    decreases rounds
  {
    hide LeadsTo, NewSettled;
    if rounds == 0 {
      m' := m;
    } else {
      assert Shift((d, n), m) == (d, n + m);
      LedTo(w, (d, n), (d, more), m, seen);
      assert Shift((d, more), m) == (d, n + (m + (more - n)));
      m' := RoundAndRound(w, d, n, more, m + (more - n), rounds - 1, seen);
    }
  }

  lemma NoFiniteGuard(w: World, id: DeclId, d: DeclId, n: nat, more: nat, m: nat, seen: Seen)
    requires n < more && LeadsTo(w, (id, 0), (d, n)) && LeadsTo(w, (d, n), (d, more))
    requires NewSettled(w, {}, seen)
    ensures (id, m) !in seen
  {
    hide LeadsTo, NewSettled;
    if (id, m) in seen {
      assert Shift((id, 0), m) == (id, m) && Shift((d, n), m) == (d, n + m);
      LedTo(w, (id, 0), (d, n), m, seen);
      var top := Bounded(seen);
      var m' := RoundAndRound(w, d, n, more, m, top + 1, seen);
    }
  }

  /** No depth is enough then, for any path. */
  lemma GrowingNeverStops(w: World, id: DeclId, steps: seq<PathStep>, depth: nat)
    requires Grows(w, id) && steps != []
    ensures Lookup(w, AtDecl(id), steps, {}, depth).None?
  {
    if Lookup(w, AtDecl(id), steps, {}, depth).Some? {
      MeetsAll(w, AtDecl(id), steps, {}, depth);
      hide Lookup, LeadsTo, NewSettled;
      assert (id, |steps|) in PlaceKeys(w, AtDecl(id), |steps|);
      var d: DeclId, n: nat, more: nat :|
        n < more && LeadsTo(w, (id, 0), (d, n)) && LeadsTo(w, (d, n), (d, more));
      NoFiniteGuard(w, id, d, n, more, |steps|, Lookup(w, AtDecl(id), steps, {}, depth).value.seen);
    }
  }

  // ---------------------------------------------------------------- exactly when a climbing walk stops

  /** No reference stands behind a member or an array step: every one is met whatever the path is. */
  predicate Climbs(w: World, file: File, node: TypeNode)
    decreases node
  {
    match node
    case TypeLiteral(members) => MemberRefs(w, file, members) == []
    case Parenthesized(inner) => Climbs(w, file, inner)
    case Operator(inner) => Climbs(w, file, inner)
    case Intersection(parts) => forall i :: 0 <= i < |parts| ==> Climbs(w, file, parts[i])
    case Union(parts) => forall i :: 0 <= i < |parts| ==> Climbs(w, file, parts[i])
    case ArrayOf(element) => Refs(w, file, element) == []
    case IndexedAccess(indexed, index) => index.Some? ==> Climbs(w, file, indexed)
    case Reference(name, _, args) =>
      if name in PASSTHROUGH_WRAPPERS && args != [] then Climbs(w, file, args[0])
      else name in ARRAY_NAMES && args != [] ==> Refs(w, file, args[0]) == []
    case OtherType => true
  }

  predicate DeclClimbs(w: World, id: DeclId)
    requires id in w.decls
  {
    match w.decls[id].declaration
    case Alias(aliased) => Climbs(w, w.decls[id].file, aliased)
    case Interface(_, _) => DeclRefs(w, id) == []
  }

  /** A reference is met with as many steps or more, and with more steps from inside an indexed access. */
  lemma {:induction false} RefEntered(w: World, file: File, node: TypeNode, r: DeclId, indexed: bool, n: nat)
    returns (k: nat)
    requires Climbs(w, file, node) && r in (if indexed then IndexRefs(w, file, node) else Refs(w, file, node))
    ensures n <= k && (indexed ==> n < k) && (r, k) in Entered(w, file, node, n)
    decreases node
  {
    match node {
      case TypeLiteral(members) => MemberIndexRefsAreRefs(w, file, members);
      case Parenthesized(inner) => k := RefEntered(w, file, inner, r, indexed, n);
      case Operator(inner) => k := RefEntered(w, file, inner, r, indexed, n);
      case Intersection(parts) => k := PartRefEntered(w, file, parts, r, indexed, n);
      case Union(parts) => k := PartRefEntered(w, file, parts, r, indexed, n);
      case ArrayOf(element) => IndexRefsAreRefs(w, file, element);
      case IndexedAccess(inside, _) => k := RefEntered(w, file, inside, r, false, n + 1);
      case Reference(name, _, args) =>
        if name in PASSTHROUGH_WRAPPERS && args != [] {
          k := RefEntered(w, file, args[0], r, indexed, n);
        } else {
          if args != [] {
            IndexRefsAreRefs(w, file, args[0]);
          }
          k := n;
        }
    }
  }

  lemma {:induction false} PartRefEntered(w: World, file: File, parts: seq<TypeNode>, r: DeclId, indexed: bool, n: nat)
    returns (k: nat)
    requires forall i :: 0 <= i < |parts| ==> Climbs(w, file, parts[i])
    requires r in (if indexed then PartIndexRefs(w, file, parts) else PartRefs(w, file, parts))
    ensures n <= k && (indexed ==> n < k) && (r, k) in PartsEntered(w, file, parts, n)
    decreases parts
  {
    if r in (if indexed then IndexRefs(w, file, parts[0]) else Refs(w, file, parts[0])) {
      k := RefEntered(w, file, parts[0], r, indexed, n);
    } else {
      k := PartRefEntered(w, file, parts[1..], r, indexed, n);
    }
  }

  lemma DeclRefEntered(w: World, d: DeclId, r: DeclId, indexed: bool, n: nat) returns (k: nat)
    requires d in w.decls && DeclClimbs(w, d) && r in (if indexed then DeclIndexRefs(w, d) else DeclRefs(w, d))
    ensures n <= k && (indexed ==> n < k) && (r, k) in Next(w, (d, n))
  {
    match w.decls[d].declaration
    case Alias(aliased) => k := RefEntered(w, w.decls[d].file, aliased, r, indexed, n);
    case Interface(members, _) => MemberIndexRefsAreRefs(w, w.decls[d].file, members);
  }

  lemma LeadsCons(w: World, a: Key, b: Key, c: Key)
    requires b in Next(w, a) && LeadsTo(w, b, c)
    ensures LeadsTo(w, a, c)
  {
    hide Next;
    var p :| Leads(w, p) && p[0] == b && p[|p| - 1] == c;
    var q := [a] + p;
    forall i | 0 <= i < |q| - 1 ensures q[i + 1] in Next(w, q[i]) {
      if i > 0 {
        assert p[(i - 1) + 1] in Next(w, p[i - 1]);
      }
    }
    assert Leads(w, q) && q[0] == a && q[|q| - 1] == c;
  }

  /** Where references lead, the walk goes, and the path gets no shorter on the way. */
  lemma {:induction false} Followed(w: World, p: seq<DeclId>, n: nat) returns (k: nat)
    requires Path(RefGraph(w), p) && forall i :: 0 <= i < |p| - 1 ==> p[i] in w.decls && DeclClimbs(w, p[i])
    ensures n <= k && LeadsTo(w, (p[0], n), (p[|p| - 1], k))
    decreases |p|
  {
    hide DeclClimbs, Next, Leads;
    if |p| == 1 {
      k := n;
      LeadsSelf(w, (p[0], n));
    } else {
      assert Edge(RefGraph(w), p[0], p[0 + 1]);
      var m := DeclRefEntered(w, p[0], p[1], false, n);
      var q := p[1..];
      forall i | 0 <= i < |q| - 1 ensures Edge(RefGraph(w), q[i], q[i + 1]) && q[i] in w.decls && DeclClimbs(w, q[i]) {
        assert Edge(RefGraph(w), p[i + 1], p[(i + 1) + 1]);
      }
      k := Followed(w, q, m);
      LeadsCons(w, (p[0], n), (p[1], m), (p[|p| - 1], k));
    }
  }

  lemma LeadsSelf(w: World, key: Key)
    ensures LeadsTo(w, key, key)
  {
    assert Leads(w, [key]);
  }

  /** Every declaration on a way from a declaration in reach is in reach. */
  lemma {:induction false} WayInScope(w: World, id: DeclId, p: seq<DeclId>, i: nat)
    requires Path(RefGraph(w), p) && i < |p| - 1 && p[0] in Scope(w, id)
    ensures p[i] in Scope(w, id)
  {
    assert Edge(RefGraph(w), p[i], p[i + 1]);
    if i > 0 {
      WayInScope(w, id, p, i - 1);
      assert Edge(RefGraph(w), p[i - 1], p[(i - 1) + 1]);
      ReachStep(RefGraph(w), id, p[i - 1], p[i]);
    }
  }

  lemma FollowedFrom(w: World, id: DeclId, a: DeclId, b: DeclId, n: nat) returns (k: nat)
    requires forall d :: d in Scope(w, id) ==> DeclClimbs(w, d)
    requires a in Scope(w, id) && Reachable(RefGraph(w), a, b)
    ensures n <= k && LeadsTo(w, (a, n), (b, k))
  {
    hide DeclClimbs, Leads;
    var p :| PathBetween(RefGraph(w), p, a, b);
    forall i | 0 <= i < |p| - 1 ensures p[i] in w.decls && DeclClimbs(w, p[i]) {
      WayInScope(w, id, p, i);
    }
    k := Followed(w, p, n);
  }

  lemma IndexedCycleGrows(w: World, id: DeclId, d: DeclId, e: DeclId)
    requires id in w.decls && forall d :: d in Scope(w, id) ==> DeclClimbs(w, d)
    requires d in Scope(w, id) && e in DeclIndexRefs(w, d) && Reachable(RefGraph(w), e, d)
    ensures Grows(w, id)
  {
    hide DeclClimbs, LeadsTo;
    ReachSelf(RefGraph(w), id);
    var n := FollowedFrom(w, id, id, d, 0);
    var m := DeclRefEntered(w, d, e, true, n);
    DeclIndexRefIsRef(w, d, e);
    assert Edge(RefGraph(w), d, e);
    ReachStep(RefGraph(w), id, d, e);
    var more := BackTo(w, id, d, e, m);
    LeadsCons(w, (d, n), (e, m), (d, more));
  }

  lemma DeclIndexRefIsRef(w: World, d: DeclId, e: DeclId)
    requires d in w.decls && e in DeclIndexRefs(w, d)
    ensures e in DeclRefs(w, d)
  {
    match w.decls[d].declaration
    case Alias(aliased) => IndexRefsAreRefs(w, w.decls[d].file, aliased);
    case Interface(members, _) => MemberIndexRefsAreRefs(w, w.decls[d].file, members);
  }

  lemma BackTo(w: World, id: DeclId, d: DeclId, e: DeclId, m: nat) returns (more: nat)
    requires forall d :: d in Scope(w, id) ==> DeclClimbs(w, d)
    requires Reachable(RefGraph(w), id, e) && Reachable(RefGraph(w), e, d)
    ensures m <= more && LeadsTo(w, (e, m), (d, more))
  {
    hide DeclClimbs, LeadsTo;
    if e == d {
      more := m;
      LeadsSelf(w, (e, m));
    } else {
      var p :| PathBetween(RefGraph(w), p, e, d);
      assert Edge(RefGraph(w), p[0], p[0 + 1]);
      more := FollowedFrom(w, id, e, d, m);
    }
  }

  /** When every declaration in reach climbs, the walk stops exactly when no indexed access lies on a cycle. */
  lemma StopsExactly(w: World, id: DeclId, steps: seq<PathStep>)
    requires id in w.decls && steps != [] && forall d :: d in Scope(w, id) ==> DeclClimbs(w, d)
    ensures (exists depth: nat :: Lookup(w, AtDecl(id), steps, {}, depth).Some?) <==> NoIndexOnCycle(w, id)
  {
    hide DeclClimbs, Lookup, Grows;
    if NoIndexOnCycle(w, id) {
      var depth := DeclStops(w, id, steps, {});
    } else {
      var d, e :| d in Scope(w, id) && e in DeclIndexRefs(w, d) && Reachable(RefGraph(w), e, d);
      IndexedCycleGrows(w, id, d, e);
      forall depth: nat ensures Lookup(w, AtDecl(id), steps, {}, depth).None? {
        GrowingNeverStops(w, id, steps, depth);
      }
    }
  }
}
