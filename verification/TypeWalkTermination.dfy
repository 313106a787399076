/** When the presence walk of scripts/gen-config-catalog.ts stops, and when its path can grow for ever. */
module TypeWalkTermination {
  import opened Graph
  import opened TypeWalk

  // The guard on named declarations bounds the walk as long as the path cannot keep growing, that is, as
  // long as no indexed access lies on a cycle of declarations.

  // ---------------------------------------------------------------- the walk and its depth

  lemma {:induction false} DeeperIsSame(w: World, place: Place, steps: seq<PathStep>, seen: Seen, depth: nat, more: nat)
    requires depth <= more && Lookup(w, place, steps, seen, depth).Some?
    ensures Lookup(w, place, steps, seen, more) == Lookup(w, place, steps, seen, depth)
    decreases depth, 0
  {
    hide TurnAt;
    if steps != [] && !Revisits(place, steps, seen) {
      var marked := Mark(place, steps, seen);
      match TurnAt(w, place, steps)
      case Answer(_) =>
      case Move(next, rest) => DeeperIsSame(w, next, rest, marked, depth - 1, more - 1);
      case AnyOf(places) => DeeperIsSameAll(w, places, steps, marked, depth - 1, more - 1);
      case EachOf(places) => DeeperIsSameAll(w, places, steps, marked, depth - 1, more - 1);
    }
  }

  lemma {:induction false} DeeperIsSameAll(w: World, places: seq<Place>, steps: seq<PathStep>, seen: Seen, depth: nat, more: nat)
    requires depth <= more && LookupAll(w, places, steps, seen, depth).Some?
    ensures LookupAll(w, places, steps, seen, more) == LookupAll(w, places, steps, seen, depth)
    decreases depth, |places| + 1
  {
    if places != [] {
      DeeperIsSame(w, places[0], steps, seen, depth, more);
      DeeperIsSameAll(w, places[1..], steps, Lookup(w, places[0], steps, seen, depth).value.seen, depth, more);
    }
  }

  lemma {:induction false} SeenGrows(w: World, place: Place, steps: seq<PathStep>, seen: Seen, depth: nat)
    requires Lookup(w, place, steps, seen, depth).Some?
    ensures seen <= Lookup(w, place, steps, seen, depth).value.seen
    decreases depth, 0
  {
    hide TurnAt;
    if steps != [] && !Revisits(place, steps, seen) {
      var marked := Mark(place, steps, seen);
      match TurnAt(w, place, steps)
      case Answer(_) =>
      case Move(next, rest) => SeenGrows(w, next, rest, marked, depth - 1);
      case AnyOf(places) => SeenGrowsAll(w, places, steps, marked, depth - 1);
      case EachOf(places) => SeenGrowsAll(w, places, steps, marked, depth - 1);
    }
  }

  lemma {:induction false} SeenGrowsAll(w: World, places: seq<Place>, steps: seq<PathStep>, seen: Seen, depth: nat)
    requires LookupAll(w, places, steps, seen, depth).Some?
    ensures seen <= LookupAll(w, places, steps, seen, depth).value.1
    decreases depth, |places| + 1
  {
    if places != [] {
      SeenGrows(w, places[0], steps, seen, depth);
      SeenGrowsAll(w, places[1..], steps, Lookup(w, places[0], steps, seen, depth).value.seen, depth);
    }
  }

  // ---------------------------------------------------------------- references between declarations

  /** The declarations a walk can enter from a type, for some path. */
  function Refs(w: World, file: File, node: TypeNode): seq<DeclId>
    decreases node
  {
    match node
    case TypeLiteral(members) => MemberRefs(w, file, members)
    case Parenthesized(inner) => Refs(w, file, inner)
    case Operator(inner) => Refs(w, file, inner)
    case Intersection(parts) => PartRefs(w, file, parts)
    case Union(parts) => PartRefs(w, file, parts)
    case ArrayOf(element) => Refs(w, file, element)
    case IndexedAccess(indexed, index) => if index.Some? then Refs(w, file, indexed) else []
    case Reference(name, qualified, args) =>
      if args != [] && (name in PASSTHROUGH_WRAPPERS || name in ARRAY_NAMES) then Refs(w, file, args[0])
      else if qualified then []
      else NameRefs(w, file, name)
    case OtherType => []
  }

  function NameRefs(w: World, file: File, name: string): seq<DeclId> {
    match Resolved(w, file, name) case Some(id) => [id] case None => []
  }

  function PartRefs(w: World, file: File, parts: seq<TypeNode>): seq<DeclId>
    decreases parts
  {
    if parts == [] then [] else Refs(w, file, parts[0]) + PartRefs(w, file, parts[1..])
  }

  function MemberRefs(w: World, file: File, members: seq<Signature>): seq<DeclId>
    decreases members
  {
    if members == [] then [] else SignatureRefs(w, file, members[0]) + MemberRefs(w, file, members[1..])
  }

  function SignatureRefs(w: World, file: File, m: Signature): seq<DeclId>
    decreases m
  {
    if m.Property? && m.annotation.Some? then Refs(w, file, m.annotation.value) else []
  }

  function BaseRefs(w: World, file: File, bases: seq<Heritage>): seq<DeclId> {
    if bases == [] then []
    else (if bases[0].Named? then NameRefs(w, file, bases[0].name) else []) + BaseRefs(w, file, bases[1..])
  }

  /** Those of them that stand inside the indexed type of an indexed access. */
  function IndexRefs(w: World, file: File, node: TypeNode): seq<DeclId>
    decreases node
  {
    match node
    case TypeLiteral(members) => MemberIndexRefs(w, file, members)
    case Parenthesized(inner) => IndexRefs(w, file, inner)
    case Operator(inner) => IndexRefs(w, file, inner)
    case Intersection(parts) => PartIndexRefs(w, file, parts)
    case Union(parts) => PartIndexRefs(w, file, parts)
    case ArrayOf(element) => IndexRefs(w, file, element)
    case IndexedAccess(indexed, index) => if index.Some? then Refs(w, file, indexed) else []
    case Reference(name, _, args) =>
      if args != [] && (name in PASSTHROUGH_WRAPPERS || name in ARRAY_NAMES) then IndexRefs(w, file, args[0])
      else []
    case OtherType => []
  }

  function PartIndexRefs(w: World, file: File, parts: seq<TypeNode>): seq<DeclId>
    decreases parts
  {
    if parts == [] then [] else IndexRefs(w, file, parts[0]) + PartIndexRefs(w, file, parts[1..])
  }

  function MemberIndexRefs(w: World, file: File, members: seq<Signature>): seq<DeclId>
    decreases members
  {
    if members == [] then [] else SignatureIndexRefs(w, file, members[0]) + MemberIndexRefs(w, file, members[1..])
  }

  function SignatureIndexRefs(w: World, file: File, m: Signature): seq<DeclId>
    decreases m
  {
    if m.Property? && m.annotation.Some? then IndexRefs(w, file, m.annotation.value) else []
  }

  function DeclRefs(w: World, id: DeclId): seq<DeclId>
    requires id in w.decls
  {
    var d := w.decls[id];
    match d.declaration
    case Alias(aliased) => Refs(w, d.file, aliased)
    case Interface(members, bases) => MemberRefs(w, d.file, members) + BaseRefs(w, d.file, bases)
  }

  function DeclIndexRefs(w: World, id: DeclId): seq<DeclId>
    requires id in w.decls
  {
    var d := w.decls[id];
    match d.declaration
    case Alias(aliased) => IndexRefs(w, d.file, aliased)
    case Interface(members, _) => MemberIndexRefs(w, d.file, members)
  }

  function RefGraph(w: World): Graph<DeclId> {
    map id | id in w.decls :: DeclRefs(w, id)
  }

  /** The declarations a walk from `id` can come to. */
  ghost function Scope(w: World, id: DeclId): set<DeclId> {
    set e | e in w.decls && Reachable(RefGraph(w), id, e)
  }

  /** No indexed access in reach lies on a cycle: what it indexes never leads back to its declaration. */
  ghost predicate NoIndexOnCycle(w: World, id: DeclId) {
    forall d, e :: d in Scope(w, id) && e in DeclIndexRefs(w, d) ==> !Reachable(RefGraph(w), e, d)
  }

  // ---------------------------------------------------------------- the measure

  lemma ScopeStep(w: World, d: DeclId, e: DeclId)
    requires d in w.decls && e in w.decls && e in DeclRefs(w, d)
    ensures Scope(w, e) <= Scope(w, d)
  {
    assert Edge(RefGraph(w), d, e);
    forall x | x in Scope(w, e) ensures x in Scope(w, d) {
      ReachCons(RefGraph(w), d, e, x);
    }
  }

  lemma ScopeShrinks(w: World, d: DeclId, e: DeclId)
    requires NoIndexOnCycle(w, d) && d in w.decls && e in w.decls
    requires e in DeclIndexRefs(w, d) && e in DeclRefs(w, d)
    ensures Scope(w, e) < Scope(w, d)
  {
    ScopeStep(w, d, e);
    ReachSelf(RefGraph(w), d);
    assert d in Scope(w, d) && d !in Scope(w, e);
  }

  /** The guard keys not used yet that a walk with at most `steps` steps can still use. */
  ghost function Unused(w: World, steps: nat, seen: Seen): set<(DeclId, nat)> {
    (set d, n | d in w.decls && 0 <= n <= steps :: (d, n)) - seen
  }

  lemma UnusedShrinks(w: World, id: DeclId, steps: nat, seen: Seen)
    requires id in w.decls && (id, steps) !in seen
    ensures Unused(w, steps, seen + {(id, steps)}) < Unused(w, steps, seen)
  {
    assert (id, steps) in Unused(w, steps, seen) && (id, steps) !in Unused(w, steps, seen + {(id, steps)});
  }

  lemma UnusedAntitone(w: World, less: nat, steps: nat, seen: Seen, more: Seen)
    requires less <= steps && seen <= more
    ensures Unused(w, less, more) <= Unused(w, steps, seen)
  {
  }

  function Size(node: TypeNode): nat
    decreases node
  {
    1 + match node
      case TypeLiteral(members) => MembersSize(members)
      case Parenthesized(inner) => Size(inner)
      case Operator(inner) => Size(inner)
      case Intersection(parts) => PartsSize(parts)
      case Union(parts) => PartsSize(parts)
      case ArrayOf(element) => Size(element)
      case IndexedAccess(indexed, _) => Size(indexed)
      case Reference(_, _, args) => PartsSize(args)
      case OtherType => 0
  }

  function PartsSize(parts: seq<TypeNode>): nat
    decreases parts
  {
    if parts == [] then 0 else 1 + Size(parts[0]) + PartsSize(parts[1..])
  }

  function MembersSize(members: seq<Signature>): nat
    decreases members
  {
    if members == [] then 0 else SignatureSize(members[0]) + MembersSize(members[1..])
  }

  function SignatureSize(m: Signature): nat
    decreases m
  {
    if m.Property? && m.annotation.Some? then Size(m.annotation.value) else 0
  }

  /** A type written in declaration `owner`, and whether it stands inside an indexed access there. */
  ghost predicate Within(w: World, owner: DeclId, indexed: bool, file: File, node: TypeNode) {
    && owner in w.decls
    && (forall r :: r in Refs(w, file, node) ==> r in DeclRefs(w, owner) && (indexed ==> r in DeclIndexRefs(w, owner)))
    && (forall r :: r in IndexRefs(w, file, node) ==> r in DeclIndexRefs(w, owner))
  }

  ghost predicate PartsWithin(w: World, owner: DeclId, indexed: bool, file: File, parts: seq<TypeNode>) {
    && owner in w.decls
    && (forall r :: r in PartRefs(w, file, parts) ==> r in DeclRefs(w, owner) && (indexed ==> r in DeclIndexRefs(w, owner)))
    && (forall r :: r in PartIndexRefs(w, file, parts) ==> r in DeclIndexRefs(w, owner))
  }

  lemma {:induction false} FoundMember(w: World, file: File, members: seq<Signature>, name: string)
    requires FindProperty(members, name).Some? && FindProperty(members, name).value.annotation.Some?
    ensures var t := FindProperty(members, name).value.annotation.value;
      && Size(t) <= MembersSize(members)
      && (forall r :: r in Refs(w, file, t) ==> r in MemberRefs(w, file, members))
      && (forall r :: r in IndexRefs(w, file, t) ==> r in MemberIndexRefs(w, file, members))
  {
    if !(members[0].Property? && members[0].text == name) {
      FoundMember(w, file, members[1..], name);
    }
  }

  lemma {:induction false} IndexRefsAreRefs(w: World, file: File, node: TypeNode)
    ensures forall r :: r in IndexRefs(w, file, node) ==> r in Refs(w, file, node)
    decreases node
  {
    match node
    case TypeLiteral(members) => MemberIndexRefsAreRefs(w, file, members);
    case Parenthesized(inner) => IndexRefsAreRefs(w, file, inner);
    case Operator(inner) => IndexRefsAreRefs(w, file, inner);
    case Intersection(parts) => PartIndexRefsAreRefs(w, file, parts);
    case Union(parts) => PartIndexRefsAreRefs(w, file, parts);
    case ArrayOf(element) => IndexRefsAreRefs(w, file, element);
    case IndexedAccess(_, _) =>
    case Reference(_, _, args) =>
      if args != [] {
        IndexRefsAreRefs(w, file, args[0]);
      }
    case OtherType =>
  }

  lemma {:induction false} PartIndexRefsAreRefs(w: World, file: File, parts: seq<TypeNode>)
    ensures forall r :: r in PartIndexRefs(w, file, parts) ==> r in PartRefs(w, file, parts)
    decreases parts
  {
    if parts != [] {
      IndexRefsAreRefs(w, file, parts[0]);
      PartIndexRefsAreRefs(w, file, parts[1..]);
    }
  }

  lemma {:induction false} MemberIndexRefsAreRefs(w: World, file: File, members: seq<Signature>)
    ensures forall r :: r in MemberIndexRefs(w, file, members) ==> r in MemberRefs(w, file, members)
    decreases members
  {
    if members != [] {
      SignatureIndexRefsAreRefs(w, file, members[0]);
      MemberIndexRefsAreRefs(w, file, members[1..]);
    }
  }

  lemma {:induction false} SignatureIndexRefsAreRefs(w: World, file: File, m: Signature)
    ensures forall r :: r in SignatureIndexRefs(w, file, m) ==> r in SignatureRefs(w, file, m)
    decreases m
  {
    if m.Property? && m.annotation.Some? {
      IndexRefsAreRefs(w, file, m.annotation.value);
    }
  }

  lemma OneMoreStops(w: World, places: seq<Place>, steps: seq<PathStep>, seen: Seen, a: nat, b: nat)
    requires places != [] && Lookup(w, places[0], steps, seen, a).Some?
    requires LookupAll(w, places[1..], steps, Lookup(w, places[0], steps, seen, a).value.seen, b).Some?
    ensures LookupAll(w, places, steps, seen, if a > b then a else b).Some?
  {
    var n := if a > b then a else b;
    DeeperIsSame(w, places[0], steps, seen, a, n);
    DeeperIsSameAll(w, places[1..], steps, Lookup(w, places[0], steps, seen, a).value.seen, b, n);
  }

  lemma {:induction false} DeclStops(w: World, id: DeclId, steps: seq<PathStep>, seen: Seen) returns (depth: nat)
    requires NoIndexOnCycle(w, id) && id in w.decls
    ensures Lookup(w, AtDecl(id), steps, seen, depth).Some?
    decreases Scope(w, id), 1, Unused(w, |steps|, seen), 0, 0
  {
    if steps == [] || (id, |steps|) in seen {
      return 0;
    }
    var marked := seen + {(id, |steps|)};
    UnusedShrinks(w, id, |steps|, seen);
    var d := w.decls[id];
    match d.declaration
    case Alias(aliased) =>
      var n := TypeStops(w, id, false, d.file, aliased, steps, marked);
      depth := n + 1;
    case Interface(members, bases) =>
      if steps[0].ArrayHop? {
        return 1;
      }
      match FindProperty(members, steps[0].name)
      case None =>
        var n := BasesStop(w, id, bases, steps, marked);
        depth := n + 1;
      case Some(p) =>
        if |steps| > 1 && p.annotation.Some? {
          FoundMember(w, d.file, members, steps[0].name);
          UnusedAntitone(w, |steps| - 1, |steps|, marked, marked);
          var n := TypeStops(w, id, false, d.file, p.annotation.value, steps[1..], marked);
          depth := n + 1;
        } else {
          depth := 1;
        }
  }

  lemma {:induction false} BasesStop(w: World, id: DeclId, bases: seq<Heritage>, steps: seq<PathStep>, seen: Seen) returns (depth: nat)
    requires NoIndexOnCycle(w, id) && id in w.decls && steps != []
    requires forall r :: r in BaseRefs(w, w.decls[id].file, bases) ==> r in DeclRefs(w, id)
    ensures LookupAll(w, BasePlaces(w, w.decls[id].file, bases), steps, seen, depth).Some?
    decreases Scope(w, id), 1, Unused(w, |steps|, seen), 1, |bases|
  {
    if bases == [] {
      return 0;
    }
    var file := w.decls[id].file;
    var places := BasePlaces(w, file, bases);
    var a := NameStops(w, id, file, bases[0], steps, seen);
    SeenGrows(w, places[0], steps, seen, a);
    var first := Lookup(w, places[0], steps, seen, a).value;
    UnusedAntitone(w, |steps|, |steps|, seen, first.seen);
    var b := BasesStop(w, id, bases[1..], steps, first.seen);
    assert places[1..] == BasePlaces(w, file, bases[1..]);
    OneMoreStops(w, places, steps, seen, a, b);
    depth := if a > b then a else b;
  }

  lemma {:induction false} NameStops(w: World, id: DeclId, file: File, base: Heritage, steps: seq<PathStep>, seen: Seen) returns (depth: nat)
    requires NoIndexOnCycle(w, id) && id in w.decls && steps != []
    requires base.Named? ==> forall r :: r in NameRefs(w, file, base.name) ==> r in DeclRefs(w, id)
    ensures Lookup(w, BasePlaces(w, file, [base])[0], steps, seen, depth).Some?
    decreases Scope(w, id), 1, Unused(w, |steps|, seen), 1, 0
  {
    if base.Named? && Resolved(w, file, base.name).Some? {
      var e := Resolved(w, file, base.name).value;
      assert e in NameRefs(w, file, base.name);
      ScopeStep(w, id, e);
      depth := DeclStops(w, e, steps, seen);
    } else {
      depth := 1;
    }
  }

  lemma {:induction false} TypeStops(
    w: World, owner: DeclId, indexed: bool, file: File, node: TypeNode, steps: seq<PathStep>, seen: Seen)
    returns (depth: nat)
    requires NoIndexOnCycle(w, owner) && Within(w, owner, indexed, file, node)
    ensures Lookup(w, AtType(file, node), steps, seen, depth).Some?
    decreases Scope(w, owner), if indexed then 0 else 1, if indexed then {} else Unused(w, |steps|, seen), Size(node), 0
  {
    depth := 1;
    if steps == [] {
      return;
    }
    UnusedAntitone(w, |steps| - 1, |steps|, seen, seen);
    var n: nat := 0;
    match node {
      case TypeLiteral(members) =>
        if steps[0].Member? && FindProperty(members, steps[0].name).Some? {
          var p := FindProperty(members, steps[0].name).value;
          if |steps| > 1 && p.annotation.Some? {
            FoundMember(w, file, members, steps[0].name);
            n := TypeStops(w, owner, indexed, file, p.annotation.value, steps[1..], seen);
          }
        }
      case Parenthesized(inner) => n := TypeStops(w, owner, indexed, file, inner, steps, seen);
      case Operator(inner) => n := TypeStops(w, owner, indexed, file, inner, steps, seen);
      case Intersection(parts) => n := PartsStop(w, owner, indexed, file, parts, steps, seen);
      case Union(parts) => n := PartsStop(w, owner, indexed, file, parts, steps, seen);
      case ArrayOf(element) =>
        if steps[0].ArrayHop? {
          n := TypeStops(w, owner, indexed, file, element, steps[1..], seen);
        }
      case IndexedAccess(inside, index) =>
        if index.Some? {
          IndexRefsAreRefs(w, file, inside);
          n := TypeStops(w, owner, true, file, inside, [Member(index.value)] + steps, seen);
        }
      case Reference(name, qualified, args) => n := ReferenceStops(w, owner, indexed, file, node, steps, seen);
      case OtherType =>
    }
    depth := n + 1;
  }

  lemma {:induction false} ReferenceStops(
    w: World, owner: DeclId, indexed: bool, file: File, node: TypeNode, steps: seq<PathStep>, seen: Seen)
    returns (depth: nat)
    requires NoIndexOnCycle(w, owner) && Within(w, owner, indexed, file, node) && node.Reference? && steps != []
    ensures Lookup(w, AtType(file, node), steps, seen, depth + 1).Some?
    decreases Scope(w, owner), if indexed then 0 else 1, if indexed then {} else Unused(w, |steps|, seen), Size(node) - 1, 1
  {
    UnusedAntitone(w, |steps| - 1, |steps|, seen, seen);
    var name, args := node.name, node.args;
    depth := 0;
    assert args != [] ==> PartsSize(args) == 1 + Size(args[0]) + PartsSize(args[1..]);
    if name in PASSTHROUGH_WRAPPERS && args != [] {
      depth := TypeStops(w, owner, indexed, file, args[0], steps, seen);
    } else if name in ARRAY_NAMES && args != [] {
      if steps[0].ArrayHop? {
        depth := TypeStops(w, owner, indexed, file, args[0], steps[1..], seen);
      }
    } else if !node.qualified {
      if Resolved(w, file, name).Some? {
        var e := Resolved(w, file, name).value;
        assert e in NameRefs(w, file, name) && e in Refs(w, file, node);
        ScopeStep(w, owner, e);
        if indexed {
          ScopeShrinks(w, owner, e);
        }
        depth := DeclStops(w, e, steps, seen);
      } else {
        depth := 1;
      }
    }
  }

  lemma {:induction false} PartsStop(
    w: World, owner: DeclId, indexed: bool, file: File, parts: seq<TypeNode>, steps: seq<PathStep>, seen: Seen)
    returns (depth: nat)
    requires NoIndexOnCycle(w, owner) && PartsWithin(w, owner, indexed, file, parts) && steps != []
    ensures LookupAll(w, PartPlaces(file, parts), steps, seen, depth).Some?
    decreases Scope(w, owner), if indexed then 0 else 1, if indexed then {} else Unused(w, |steps|, seen), PartsSize(parts), 0
  {
    depth := 0;
    if parts != [] {
      var places := PartPlaces(file, parts);
      var a := TypeStops(w, owner, indexed, file, parts[0], steps, seen);
      SeenGrows(w, places[0], steps, seen, a);
      var first := Lookup(w, places[0], steps, seen, a).value;
      UnusedAntitone(w, |steps|, |steps|, seen, first.seen);
      var b := PartsStop(w, owner, indexed, file, parts[1..], steps, first.seen);
      assert places[1..] == PartPlaces(file, parts[1..]);
      OneMoreStops(w, places, steps, seen, a, b);
      depth := if a > b then a else b;
    }
  }
}
