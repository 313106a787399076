/** The walk as the program runs it, with one mutable `seen` set (scripts/gen-config-catalog.ts). */
module PathCheck {
  import opened Common
  import opened Graph
  import opened TypeWalk
  import opened TypeWalkExact
  import opened TypeWalkLevels
  import opened TypeWalkTermination

  class Walker {
    const w: World
    var seen: Seen

    constructor (w: World)
      ensures this.w == w && seen == {}
    {
      this.w, seen := w, {};
    }

    /** `depth` only witnesses that the walk stops; it is erased. */
    method Walk(place: Place, steps: seq<PathStep>, ghost depth: nat) returns (result: PathLookup)
      requires Lookup(w, place, steps, seen, depth).Some?
      modifies this
      ensures Lookup(w, place, steps, old(seen), depth) == Some(Walked(result, seen))
      decreases depth, 0
    {
      hide TurnAt;
      if |steps| == 0 {
        return Found;
      }
      if place.AtDecl? {
        if (place.id, |steps|) in seen {
          return Unknown;
        }
        seen := seen + {(place.id, |steps|)};
      }
      match TurnAt(w, place, steps)
      case Answer(answer) =>
        result := answer;
      case Move(next, rest) =>
        result := Walk(next, rest, depth - 1);
      case AnyOf(places) =>
        var results := WalkAll(places, steps, depth - 1);
        result := Combine(results);
      case EachOf(places) =>
        var results := WalkAll(places, steps, depth - 1);
        result := Agree(results);
    }

    method WalkAll(places: seq<Place>, steps: seq<PathStep>, ghost depth: nat) returns (results: seq<PathLookup>)
      requires LookupAll(w, places, steps, seen, depth).Some?
      modifies this
      ensures LookupAll(w, places, steps, old(seen), depth) == Some((results, seen))
      decreases depth, 1
    {
      results := [];
      assert places[0..] == places;
      assert [] + LookupAll(w, places, steps, seen, depth).value.0 == LookupAll(w, places, steps, seen, depth).value.0;
      for i := 0 to |places|
        invariant LookupAll(w, places[i..], steps, seen, depth).Some?
        invariant LookupAll(w, places, steps, old(seen), depth) ==
          Continued(results, LookupAll(w, places[i..], steps, seen, depth).value)
      {
        assert places[i..][0] == places[i] && places[i..][1..] == places[i + 1..];
        var result := Walk(places[i], steps, depth);
        ghost var rest := LookupAll(w, places[i + 1..], steps, seen, depth).value;
        assert results + ([result] + rest.0) == (results + [result]) + rest.0;
        results := results + [result];
      }
      assert results + [] == results;
    }
  }

  ghost function Continued(results: seq<PathLookup>, rest: (seq<PathLookup>, Seen)): Option<(seq<PathLookup>, Seen)> {
    Some((results + rest.0, rest.1))
  }

  /** `missing` under every reading, at every address. */
  ghost predicate NeverAnywhere(w: World, place: Place, steps: seq<PathStep>) {
    forall at :: Never(w, at, place, steps)
  }

  /**
   * The check of one schema key path against a config declaration: it stops; `found` is the truth under
   * every reading of the declared types, and `missing` is exactly when no hidden signature was passed over.
   */
  method LookupPath(w: World, id: DeclId, steps: seq<PathStep>) returns (result: PathLookup)
    requires id in w.decls && (NoIndexOnCycle(w, id) || HasLevels(w, id))
    ensures exists depth: nat, seen: Seen ::
      && Lookup(w, AtDecl(id), steps, {}, depth) == Some(Walked(result, seen))
      && (result == Missing ==> (NeverAnywhere(w, AtDecl(id), steps) <==> !Overlooks(w, AtDecl(id), steps, depth)))
    ensures result == Found ==> forall rd, at :: HasPath(w, rd, at, AtDecl(id), steps)
    ensures result == Missing && NothingHidden(w, id) ==> NeverAnywhere(w, AtDecl(id), steps)
  {
    ghost var depth: nat;
    if NoIndexOnCycle(w, id) {
      depth := DeclStops(w, id, steps, {});
    } else {
      ghost var levels :| Leveled(w, levels) && id in levels;
      depth := LeveledStops(w, levels, id, steps, {});
    }
    var walker := new Walker(w);
    result := walker.Walk(AtDecl(id), steps, depth);
    Answered(w, id, steps, depth);
  }

  lemma Answered(w: World, id: DeclId, steps: seq<PathStep>, depth: nat)
    requires Lookup(w, AtDecl(id), steps, {}, depth).Some?
    ensures var result := Lookup(w, AtDecl(id), steps, {}, depth).value.result;
      && (result == Found ==> forall rd, at :: HasPath(w, rd, at, AtDecl(id), steps))
      && (result == Missing ==> (NeverAnywhere(w, AtDecl(id), steps) <==> !Overlooks(w, AtDecl(id), steps, depth)))
      && (result == Missing && NothingHidden(w, id) ==> NeverAnywhere(w, AtDecl(id), steps))
  {
    hide HasPath, Lookup, Overlooks, NothingHidden, Never;
    var result := Lookup(w, AtDecl(id), steps, {}, depth).value.result;
    if result == Found {
      forall rd, at ensures HasPath(w, rd, at, AtDecl(id), steps) {
        LookupSound(w, rd, at, AtDecl(id), steps, {}, depth);
      }
    }
    if result == Missing {
      forall at ensures Never(w, at, AtDecl(id), steps) <==> !Overlooks(w, AtDecl(id), steps, depth) {
        MissingExactly(w, at, AtDecl(id), steps, {}, depth);
      }
      assert Never(w, [], AtDecl(id), steps) <==> !Overlooks(w, AtDecl(id), steps, depth);
      if NothingHidden(w, id) {
        ReachSelf(RefGraph(w), id);
        PlainOverlooksNothing(w, id, AtDecl(id), steps, depth);
      }
    }
  }

  // ---------------------------------------------------------------- the limits of the walk

  /** A world with one file, whose declarations are the named aliases. */
  function Aliases(types: map<DeclId, TypeNode>): World {
    World(map id | id in types :: Declared("", Alias(types[id])), (_, name) => Some(name))
  }

  /** `type T = T['a']`. */
  const SELF_INDEXED := Aliases(map["T" := IndexedAccess(Reference("T", false, []), Some("a"))])

  /** No call depth is enough for it: the path grows at every visit, so the guard never fires. */
  lemma {:induction false} SelfIndexedDiverges(steps: seq<PathStep>, seen: Seen, depth: nat)
    requires steps != [] && forall key :: key in seen ==> key.1 < |steps|
    ensures Lookup(SELF_INDEXED, AtDecl("T"), steps, seen, depth).None?
    decreases depth
  {
    if depth > 0 {
      var marked := seen + {("T", |steps|)};
      var longer := [Member("a")] + steps;
      var self := Reference("T", false, []);
      assert TurnAt(SELF_INDEXED, AtDecl("T"), steps) == Move(AtType("", IndexedAccess(self, Some("a"))), steps);
      if depth > 1 {
        assert TurnAt(SELF_INDEXED, AtType("", IndexedAccess(self, Some("a"))), steps) == Move(AtType("", self), longer);
        if depth > 2 {
          assert TurnAt(SELF_INDEXED, AtType("", self), longer) == Move(AtDecl("T"), longer);
          SelfIndexedDiverges(longer, marked, depth - 3);
        }
        assert Lookup(SELF_INDEXED, AtType("", self), longer, marked, depth - 2).None?;
      }
    }
  }

  lemma SelfIndexedIsOnCycle()
    ensures !NoIndexOnCycle(SELF_INDEXED, "T")
  {
    assert "T" in SELF_INDEXED.decls && "T" in DeclIndexRefs(SELF_INDEXED, "T");
    ReachSelf(RefGraph(SELF_INDEXED), "T");
    assert "T" in Scope(SELF_INDEXED, "T");
  }

  /** `type T = { a: T['a'] }`: also on a cycle, but each visit consumes what the access adds. */
  const BALANCED := Aliases(map["T" := TypeLiteral([Property("a", Only("a"), Some(IndexedAccess(Reference("T", false, []), Some("a"))))])])

  /** So "no indexed access on a cycle" is sufficient for stopping, not necessary. */
  lemma BalancedStops(steps: seq<PathStep>)
    ensures !NoIndexOnCycle(BALANCED, "T")
    ensures Lookup(BALANCED, AtDecl("T"), steps, {}, 5).Some?
  {
    var self := Reference("T", false, []);
    var indexed := IndexedAccess(self, Some("a"));
    var members := [Property("a", Only("a"), Some(indexed))];
    assert "T" in BALANCED.decls && DeclIndexRefs(BALANCED, "T") == ["T"] by {
      assert MemberIndexRefs(BALANCED, "", members) == SignatureIndexRefs(BALANCED, "", members[0]) + MemberIndexRefs(BALANCED, "", []);
    }
    ReachSelf(RefGraph(BALANCED), "T");
    assert "T" in Scope(BALANCED, "T");
    if steps != [] && steps[0] == Member("a") && |steps| > 1 {
      var again := [Member("a")] + steps[1..];
      assert again == steps;
      assert FindProperty(members, "a") == Some(members[0]);
      assert TurnAt(BALANCED, AtDecl("T"), steps) == Move(AtType("", TypeLiteral(members)), steps);
      assert TurnAt(BALANCED, AtType("", TypeLiteral(members)), steps) == Move(AtType("", indexed), steps[1..]);
      assert TurnAt(BALANCED, AtType("", indexed), steps[1..]) == Move(AtType("", self), again);
      assert TurnAt(BALANCED, AtType("", self), again) == Move(AtDecl("T"), again);
    } else if steps != [] {
      assert FindProperty(members[1..], "a") == None;
      assert TurnAt(BALANCED, AtDecl("T"), steps) == Move(AtType("", TypeLiteral(members)), steps);
    }
  }

  /** It is leveled: the member step that the literal consumes makes up for the one the access adds. */
  lemma BalancedHasLevels()
    ensures HasLevels(BALANCED, "T")
  {
    var self := Reference("T", false, []);
    var indexed := IndexedAccess(self, Some("a"));
    var levels: Levels := map["T" := 0];
    assert WithinLevels(BALANCED, levels, "", self, 0);
    assert WithinLevels(BALANCED, levels, "", indexed, -1);
    assert MembersWithin(BALANCED, levels, "", [Property("a", Only("a"), Some(indexed))], -1);
    assert Leveled(BALANCED, levels);
  }

  lemma LookupTwo(w: World, p: Place, q: Place, steps: seq<PathStep>, seen: Seen, depth: nat, a: Walked, b: Walked)
    requires Lookup(w, p, steps, seen, depth) == Some(a) && Lookup(w, q, steps, a.seen, depth) == Some(b)
    ensures LookupAll(w, [p, q], steps, seen, depth) == Some(([a.result, b.result], b.seen))
  {
    hide Lookup;
    assert [p, q][1..] == [q] && [q][1..] == [];
    assert LookupAll(w, [q][1..], steps, b.seen, depth) == Some(([], b.seen));
    assert [b.result] + [] == [b.result];
    assert LookupAll(w, [q], steps, a.seen, depth) == Some(([b.result], b.seen));
    assert [a.result] + [b.result] == [a.result, b.result];
  }

  /** `type T = B & B`, `type B = {}`: nothing recurses, but the second visit to `B` hits the shared guard. */
  const DIAMOND := Aliases(map[
    "T" := Intersection([Reference("B", false, []), Reference("B", false, [])]),
    "B" := TypeLiteral([])])

  /** The answer is `unknown` although no reading has the member: the key of `B` is met twice. */
  lemma DiamondIsUnknown(at: seq<nat>)
    ensures Lookup(DIAMOND, AtDecl("T"), [Member("x")], {}, 5) == Some(Walked(Unknown, {("T", 1), ("B", 1)}))
    ensures Never(DIAMOND, at, AtDecl("T"), [Member("x")])
    ensures Met(DIAMOND, AtDecl("T"), [Member("x")], 5) == [("T", 1), ("B", 1), ("B", 1)]
  {
    DiamondWalk();
    DiamondMet();
    hide Lookup, Met;
    forall rd ensures !HasPath(DIAMOND, rd, at, AtDecl("T"), [Member("x")]) {
      DiamondMissing(rd, at);
    }
  }

  lemma MetTwo(w: World, p: Place, q: Place, steps: seq<PathStep>, depth: nat)
    ensures MetAll(w, [p, q], steps, depth) == Met(w, p, steps, depth) + Met(w, q, steps, depth)
  {
    hide Met;
    assert [p, q][1..] == [q] && [q][1..] == [];
    assert MetAll(w, [q], steps, depth) == Met(w, q, steps, depth) + MetAll(w, [], steps, depth);
  }

  lemma DiamondMet()
    ensures Met(DIAMOND, AtDecl("T"), [Member("x")], 5) == [("T", 1), ("B", 1), ("B", 1)]
  {
    var x := [Member("x")];
    var b := Reference("B", false, []);
    var both := Intersection([b, b]);
    var places := PartPlaces("", [b, b]);
    assert places == [AtType("", b), AtType("", b)];
    assert TurnAt(DIAMOND, AtDecl("T"), x) == Move(AtType("", both), x);
    assert TurnAt(DIAMOND, AtType("", both), x) == AnyOf(places);
    assert TurnAt(DIAMOND, AtType("", b), x) == Move(AtDecl("B"), x);
    assert Met(DIAMOND, AtType("", b), x, 3) == [("B", 1)];
    MetTwo(DIAMOND, places[0], places[1], x, 3);
    assert Met(DIAMOND, AtType("", both), x, 4) == [("B", 1), ("B", 1)];
  }

  lemma DiamondWalk()
    ensures Lookup(DIAMOND, AtDecl("T"), [Member("x")], {}, 5) == Some(Walked(Unknown, {("T", 1), ("B", 1)}))
  {
    var x := [Member("x")];
    var b := Reference("B", false, []);
    var both := Intersection([b, b]);
    var seen: Seen := {("T", 1)};
    var after: Seen := {("T", 1), ("B", 1)};
    assert seen + {("B", 1)} == after && Mark(AtDecl("T"), x, {}) == seen;
    var places := PartPlaces("", [b, b]);
    assert places == [AtType("", b), AtType("", b)];
    assert TurnAt(DIAMOND, AtDecl("T"), x) == Move(AtType("", both), x);
    assert TurnAt(DIAMOND, AtType("", both), x) == AnyOf(places);
    LookupTwo(DIAMOND, places[0], places[1], x, seen, 3, Walked(Missing, after), Walked(Unknown, after));
    assert Lookup(DIAMOND, AtType("", both), x, seen, 4) == Some(Walked(Unknown, after));
  }

  lemma DiamondMissing(rd: Reading, at: seq<nat>)
    ensures !HasPath(DIAMOND, rd, at, AtDecl("T"), [Member("x")])
  {
    hide HasPath;
    var x := [Member("x")];
    var b := Reference("B", false, []);
    var both := Intersection([b, b]);
    var seen: Seen := {("T", 1)};
    var places := PartPlaces("", [b, b]);
    assert places == [AtType("", b), AtType("", b)];
    assert TurnAt(DIAMOND, AtDecl("T"), x) == Move(AtType("", both), x);
    assert TurnAt(DIAMOND, AtType("", both), x) == AnyOf(places);
    hide Lookup;
    TurnSound(DIAMOND, rd, at, AtDecl("T"), x);
    TurnSound(DIAMOND, rd, at + [0], AtType("", both), x);
    NothingHiddenInB();
    forall i | 0 <= i < |places| ensures !HasPath(DIAMOND, rd, at + [0] + [i], places[i], x) {
      LookupSound(DIAMOND, rd, at + [0] + [i], AtType("", b), x, seen, 3);
    }
  }

  lemma NothingHiddenInB()
    ensures !Overlooks(DIAMOND, AtType("", Reference("B", false, [])), [Member("x")], 3)
  {
    var x := [Member("x")];
    assert TurnAt(DIAMOND, AtType("", Reference("B", false, [])), x) == Move(AtDecl("B"), x);
    assert TurnAt(DIAMOND, AtDecl("B"), x) == Move(AtType("", TypeLiteral([])), x);
    assert !Overlooks(DIAMOND, AtType("", TypeLiteral([])), x, 1);
    assert !Overlooks(DIAMOND, AtDecl("B"), x, 2);
  }

  /** `type T = { m }`, for one signature. */
  function OneMember(m: Signature): World {
    Aliases(map["T" := TypeLiteral([m])])
  }

  /** The walk says `missing`, but not because no reading has the member. */
  ghost predicate Missed(m: Signature, name: string) {
    && Lookup(OneMember(m), AtDecl("T"), [Member(name)], {}, 2) == Some(Walked(Missing, {("T", 1)}))
    && !Never(OneMember(m), [], AtDecl("T"), [Member(name)])
  }

  lemma HiddenIsMissed(m: Signature, name: string)
    requires MayDeclare(m, name) && !(m.Property? && m.text == name)
    ensures Missed(m, name)
  {
    var w, x, literal := OneMember(m), [Member(name)], AtType("", TypeLiteral([m]));
    assert FindProperty([m][1..], name) == None;
    assert [m][0] == m && Hidden([m], name);
    assert {("T", 1)} == Mark(AtDecl("T"), x, {});
    assert TurnAt(w, AtDecl("T"), x) == Move(literal, x) && TurnAt(w, literal, x) == Answer(Missing);
    assert HiddenAt(w, literal, x) && Overlooks(w, literal, x, 1);
    assert Overlooks(w, AtDecl("T"), x, 2);
    MissingExactly(w, [], AtDecl("T"), x, {}, 2);
  }

  /** `{ [key: string]: ... }`, `{ foo(): void }` and `{ 'a-b': ... }` all have members that are reported missing. */
  lemma IndexMethodAndQuotedMissed(t: TypeNode)
    ensures Missed(OtherSignature(AnyName), "x")
    ensures Missed(OtherSignature(Only("foo")), "foo")
    ensures Missed(Property("'a-b'", Only("a-b"), Some(t)), "a-b")
  {
    hide Missed;
    HiddenIsMissed(OtherSignature(AnyName), "x");
    HiddenIsMissed(OtherSignature(Only("foo")), "foo");
    HiddenIsMissed(Property("'a-b'", Only("a-b"), Some(t)), "a-b");
  }
}
