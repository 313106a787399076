module TypeWalkExact {
  // How much the walk of scripts/gen-config-catalog.ts could know, and what its guard and the signatures it
  // does not see take away from that.

  import opened Common
  import opened Graph
  import opened TypeWalk
  import opened TypeWalkTermination

  // ---------------------------------------------------------------- the walk without its guard

  function TurnOf(w: World, careful: bool, place: Place, steps: seq<PathStep>): Turn
    requires steps != []
  {
    if careful then CarefulTurn(w, place, steps) else TurnAt(w, place, steps)
  }

  /** `lookupPath` without its guard, with `depth` nested calls at most; the careful one knows of hidden signatures. */
  function Free(w: World, careful: bool, place: Place, steps: seq<PathStep>, depth: nat): Option<PathLookup>
    decreases depth, 0
  {
    if steps == [] then Some(Found)
    else if depth == 0 then None
    else
      match TurnOf(w, careful, place, steps)
      case Answer(result) => Some(result)
      case Move(next, rest) => Free(w, careful, next, rest, depth - 1)
      case AnyOf(places) =>
        (match FreeAll(w, careful, places, steps, depth - 1)
         case None => None
         case Some(results) => Some(Combine(results)))
      case EachOf(places) =>
        (match FreeAll(w, careful, places, steps, depth - 1)
         case None => None
         case Some(results) => Some(Agree(results)))
  }

  function FreeAll(w: World, careful: bool, places: seq<Place>, steps: seq<PathStep>, depth: nat): (r: Option<seq<PathLookup>>)
    ensures r.Some? ==> |r.value| == |places|
    decreases depth, |places| + 1
  {
    if places == [] then Some([])
    else match Free(w, careful, places[0], steps, depth)
      case None => None
      case Some(first) =>
        match FreeAll(w, careful, places[1..], steps, depth)
        case None => None
        case Some(rest) => Some([first] + rest)
  }

  lemma {:induction false} FreeEach(w: World, careful: bool, places: seq<Place>, steps: seq<PathStep>, depth: nat)
    requires FreeAll(w, careful, places, steps, depth).Some?
    ensures forall i :: 0 <= i < |places| ==>
      Free(w, careful, places[i], steps, depth) == Some(FreeAll(w, careful, places, steps, depth).value[i])
    decreases |places|
  {
    if places != [] {
      var rest := FreeAll(w, careful, places[1..], steps, depth).value;
      assert FreeAll(w, careful, places, steps, depth).value == [Free(w, careful, places[0], steps, depth).value] + rest;
      hide Free;
      FreeEach(w, careful, places[1..], steps, depth);
      forall i | 0 <= i < |places|
        ensures Free(w, careful, places[i], steps, depth) == Some(FreeAll(w, careful, places, steps, depth).value[i])
      {
        if i > 0 {
          assert places[i] == places[1..][i - 1];
        }
      }
    }
  }

  // ---------------------------------------------------------------- its answers are exact

  lemma CarefulTurnMeans(w: World, rd: Reading, at: seq<nat>, place: Place, steps: seq<PathStep>)
    requires steps != []
    ensures TurnMeans(w, rd, at, place, steps, CarefulTurn(w, place, steps))
  {
    if !HiddenAt(w, place, steps) {
      TurnSound(w, rd, at, place, steps);
    } else if place.AtDecl? {
      var d := w.decls[place.id];
      var bases := BasePlaces(w, d.file, d.declaration.bases);
      var open := AtType(d.file, OtherType);
      FirstPropertyFound(d.declaration.members, steps[0].name);
      assert (bases + [open])[|bases|] == open;
      assert HasPath(w, rd, at + [|bases|], open, steps) <==> rd.opaque_(at + [|bases|], steps);
      assert forall i :: 0 <= i < |bases| ==> (bases + [open])[i] == bases[i];
    }
  }

  /** The readings agree from an address on. */
  ghost predicate SameBelow(a: Reading, b: Reading, at: seq<nat>) {
    forall x :: Under(at, x) ==> SameAt(a, b, x)
  }

  predicate Under(at: seq<nat>, x: seq<nat>) {
    at <= x
  }

  ghost predicate SameAt(a: Reading, b: Reading, x: seq<nat>) {
    a.branch(x) == b.branch(x) && forall steps :: a.opaque_(x, steps) == b.opaque_(x, steps)
  }

  lemma SameFurther(a: Reading, b: Reading, at: seq<nat>, i: nat)
    requires SameBelow(a, b, at)
    ensures SameBelow(a, b, at + [i])
  {
    hide SameAt;
    forall x | Under(at + [i], x) ensures Under(at, x) {}
  }

  lemma SameHere(a: Reading, b: Reading, at: seq<nat>, steps: seq<PathStep>)
    requires SameBelow(a, b, at)
    ensures a.branch(at) == b.branch(at) && a.opaque_(at, steps) == b.opaque_(at, steps)
  {
    assert Under(at, at);
    assert SameAt(a, b, at);
  }

  /** Presence at an address depends only on what the reading says from there on. */
  lemma {:induction false} Local(w: World, a: Reading, b: Reading, at: seq<nat>, place: Place, steps: seq<PathStep>, depth: nat)
    requires Free(w, true, place, steps, depth).Some? && SameBelow(a, b, at)
    ensures HasPath(w, a, at, place, steps) <==> HasPath(w, b, at, place, steps)
    decreases depth, 0
  {
    hide HasPath, CarefulTurn, SameAt, SameBelow, AnyPresent, BranchPresent;
    if steps == [] {
      NoStepsLeft(w, a, at, place);
      NoStepsLeft(w, b, at, place);
    } else {
      CarefulTurnMeans(w, a, at, place, steps);
      CarefulTurnMeans(w, b, at, place, steps);
      SameHere(a, b, at, steps);
      match CarefulTurn(w, place, steps)
      case Answer(_) =>
      case Move(next, rest) =>
        SameFurther(a, b, at, 0);
        Local(w, a, b, at + [0], next, rest, depth - 1);
      case AnyOf(places) => LocalAll(w, a, b, at, places, steps, depth - 1);
      case EachOf(places) => LocalAll(w, a, b, at, places, steps, depth - 1);
    }
  }

  lemma {:induction false} LocalAll(w: World, a: Reading, b: Reading, at: seq<nat>, places: seq<Place>, steps: seq<PathStep>, depth: nat)
    requires FreeAll(w, true, places, steps, depth).Some? && SameBelow(a, b, at)
    ensures AnyPresent(w, a, at, places, steps) <==> AnyPresent(w, b, at, places, steps)
    ensures BranchPresent(w, a, at, places, steps) <==> BranchPresent(w, b, at, places, steps)
    decreases depth, 1
  {
    hide HasPath, SameBelow, Free;
    FreeEach(w, true, places, steps, depth);
    SameHere(a, b, at, steps);
    forall i | 0 <= i < |places|
      ensures HasPath(w, a, at + [i], places[i], steps) <==> HasPath(w, b, at + [i], places[i], steps)
    {
      SameFurther(a, b, at, i);
      Local(w, a, b, at + [i], places[i], steps, depth);
    }
  }

  /** A reading with a branch of its own at an address, and below it one reading for each part. */
  function Weave(parts: seq<Reading>, at: seq<nat>, pick: nat): Reading {
    Reading(x => WovenBranch(parts, at, pick, x), (x, steps) => WovenOpen(parts, at, x, steps))
  }

  function WovenBranch(parts: seq<Reading>, at: seq<nat>, pick: nat, x: seq<nat>): nat {
    if |x| > |at| && x[|at|] < |parts| then parts[x[|at|]].branch(x) else pick
  }

  predicate WovenOpen(parts: seq<Reading>, at: seq<nat>, x: seq<nat>, steps: seq<PathStep>) {
    |x| > |at| && x[|at|] < |parts| && parts[x[|at|]].opaque_(x, steps)
  }

  lemma WeaveBelow(parts: seq<Reading>, at: seq<nat>, pick: nat, i: nat)
    requires i < |parts|
    ensures SameBelow(Weave(parts, at, pick), parts[i], at + [i])
  {
    forall x | Under(at + [i], x) ensures SameAt(Weave(parts, at, pick), parts[i], x) {
      assert x[..|at| + 1] == at + [i] && x[|at|] == i;
    }
  }

  const ALL_OPEN := Reading(_ => 0, (_, _) => true)
  const ALL_SHUT := Reading(_ => 0, (_, _) => false)

  lemma SomeDiffers(results: seq<PathLookup>, result: PathLookup)
    requires results != [] && (result == Found || result == Missing) && Agree(results) != result
    ensures exists i :: 0 <= i < |results| && results[i] != result
  {
    assert results[0] in results;
  }

  /** Unless the careful answer is `missing`, some reading has the path. */
  lemma {:induction false} SomePresent(w: World, at: seq<nat>, place: Place, steps: seq<PathStep>, depth: nat) returns (rd: Reading)
    requires Free(w, true, place, steps, depth).Some? && Free(w, true, place, steps, depth).value != Missing
    ensures HasPath(w, rd, at, place, steps)
    decreases depth, 0
  {
    hide HasPath, CarefulTurn, AnyPresent, BranchPresent;
    rd := ALL_OPEN;
    if steps == [] {
      NoStepsLeft(w, rd, at, place);
    } else {
      match CarefulTurn(w, place, steps) {
        case Answer(_) =>
        case Move(next, rest) => rd := SomePresent(w, at + [0], next, rest, depth - 1);
        case AnyOf(places) => rd := PartPresent(w, at, places, steps, depth - 1);
        case EachOf(places) => rd := BranchMayHave(w, at, places, steps, depth - 1);
      }
      hide Free;
      CarefulTurnMeans(w, rd, at, place, steps);
    }
  }

  lemma {:induction false} PartPresent(w: World, at: seq<nat>, places: seq<Place>, steps: seq<PathStep>, depth: nat) returns (rd: Reading)
    requires FreeAll(w, true, places, steps, depth).Some? && Combine(FreeAll(w, true, places, steps, depth).value) != Missing
    ensures AnyPresent(w, rd, at, places, steps)
    decreases depth, 1
  {
    hide HasPath, Free;
    FreeEach(w, true, places, steps, depth);
    var results := FreeAll(w, true, places, steps, depth).value;
    var i :| 0 <= i < |places| && results[i] != Missing;
    rd := SomePresent(w, at + [i], places[i], steps, depth);
  }

  lemma {:induction false} BranchMayHave(w: World, at: seq<nat>, places: seq<Place>, steps: seq<PathStep>, depth: nat) returns (rd: Reading)
    requires FreeAll(w, true, places, steps, depth).Some? && Agree(FreeAll(w, true, places, steps, depth).value) != Missing
    ensures BranchPresent(w, rd, at, places, steps)
    decreases depth, 1
  {
    hide HasPath, Free;
    FreeEach(w, true, places, steps, depth);
    rd := ALL_OPEN;
    if places != [] {
      var results := FreeAll(w, true, places, steps, depth).value;
      SomeDiffers(results, Missing);
      var i :| 0 <= i < |places| && results[i] != Missing;
      var part := SomePresent(w, at + [i], places[i], steps, depth);
      rd := ChooseBranch(w, at, places, i, steps, depth, part);
    }
  }

  /** A reading that takes the `i`-th branch at the address and is `part` from there on. */
  lemma ChooseBranch(w: World, at: seq<nat>, places: seq<Place>, i: nat, steps: seq<PathStep>, depth: nat, part: Reading)
    returns (rd: Reading)
    requires i < |places| && Free(w, true, places[i], steps, depth).Some?
    ensures rd.branch(at) % |places| == i
    ensures HasPath(w, rd, at + [i], places[i], steps) <==> HasPath(w, part, at + [i], places[i], steps)
  {
    hide HasPath, Free;
    var parts := seq(|places|, _ => part);
    rd := Weave(parts, at, i);
    WeaveBelow(parts, at, i, i);
    Local(w, rd, part, at + [i], places[i], steps, depth);
  }

  /** Unless it is `found`, some reading lacks the path. */
  lemma {:induction false} SomeAbsent(w: World, at: seq<nat>, place: Place, steps: seq<PathStep>, depth: nat) returns (rd: Reading)
    requires Free(w, true, place, steps, depth).Some? && Free(w, true, place, steps, depth).value != Found
    ensures !HasPath(w, rd, at, place, steps)
    decreases depth, 0
  {
    hide HasPath, CarefulTurn, AnyPresent, BranchPresent;
    rd := ALL_SHUT;
    match CarefulTurn(w, place, steps) {
      case Answer(_) =>
      case Move(next, rest) => rd := SomeAbsent(w, at + [0], next, rest, depth - 1);
      case AnyOf(places) => rd := AllAbsent(w, at, places, steps, depth - 1);
      case EachOf(places) => rd := BranchMayLack(w, at, places, steps, depth - 1);
    }
    hide Free;
    CarefulTurnMeans(w, rd, at, place, steps);
  }

  lemma {:induction false} BranchMayLack(w: World, at: seq<nat>, places: seq<Place>, steps: seq<PathStep>, depth: nat) returns (rd: Reading)
    requires FreeAll(w, true, places, steps, depth).Some? && Agree(FreeAll(w, true, places, steps, depth).value) != Found
    ensures !BranchPresent(w, rd, at, places, steps)
    decreases depth, 2
  {
    hide HasPath, Free;
    FreeEach(w, true, places, steps, depth);
    var results := FreeAll(w, true, places, steps, depth).value;
    SomeDiffers(results, Found);
    var i :| 0 <= i < |places| && results[i] != Found;
    var part := SomeAbsent(w, at + [i], places[i], steps, depth);
    rd := ChooseBranch(w, at, places, i, steps, depth, part);
  }

  lemma {:induction false} AllAbsent(w: World, at: seq<nat>, places: seq<Place>, steps: seq<PathStep>, depth: nat) returns (rd: Reading)
    requires FreeAll(w, true, places, steps, depth).Some? && Combine(FreeAll(w, true, places, steps, depth).value) != Found
    ensures !AnyPresent(w, rd, at, places, steps)
    decreases depth, 2
  {
    hide HasPath, Free, SameBelow;
    FreeEach(w, true, places, steps, depth);
    var results := FreeAll(w, true, places, steps, depth).value;
    assert forall i :: 0 <= i < |places| ==> results[i] in results;
    var parts := EachAbsent(w, at, places, |places|, steps, depth);
    rd := Weave(parts, at, 0);
    forall i | 0 <= i < |places| ensures !HasPath(w, rd, at + [i], places[i], steps) {
      WeaveBelow(parts, at, 0, i);
      Local(w, rd, parts[i], at + [i], places[i], steps, depth);
    }
  }

  lemma {:induction false} EachAbsent(w: World, at: seq<nat>, places: seq<Place>, k: nat, steps: seq<PathStep>, depth: nat)
    returns (parts: seq<Reading>)
    requires k <= |places|
    requires forall i :: 0 <= i < |places| ==>
      Free(w, true, places[i], steps, depth).Some? && Free(w, true, places[i], steps, depth).value != Found
    ensures |parts| == k && forall i :: 0 <= i < k ==> !HasPath(w, parts[i], at + [i], places[i], steps)
    decreases depth, 1, k
  {
    hide HasPath, Free;
    parts := [];
    if k > 0 {
      var before := EachAbsent(w, at, places, k - 1, steps, depth);
      var last := SomeAbsent(w, at + [k - 1], places[k - 1], steps, depth);
      parts := before + [last];
    }
  }

  lemma {:induction false} DefiniteIsTrue(w: World, rd: Reading, at: seq<nat>, place: Place, steps: seq<PathStep>, depth: nat)
    requires Free(w, true, place, steps, depth).Some?
    ensures Agrees(Free(w, true, place, steps, depth).value, HasPath(w, rd, at, place, steps), false)
    decreases depth, 0
  {
    hide HasPath, CarefulTurn, AnyPresent, BranchPresent;
    if steps == [] {
      NoStepsLeft(w, rd, at, place);
    } else {
      CarefulTurnMeans(w, rd, at, place, steps);
      match CarefulTurn(w, place, steps)
      case Answer(_) =>
      case Move(next, rest) => DefiniteIsTrue(w, rd, at + [0], next, rest, depth - 1);
      case AnyOf(places) =>
        DefiniteAllTrue(w, rd, at, places, steps, depth - 1);
        AnyOfSound(w, rd, at, places, steps, 0, FreeAll(w, true, places, steps, depth - 1).value);
      case EachOf(places) =>
        DefiniteAllTrue(w, rd, at, places, steps, depth - 1);
        EachOfSound(w, rd, at, places, steps, 0, FreeAll(w, true, places, steps, depth - 1).value);
    }
  }

  lemma {:induction false} DefiniteAllTrue(w: World, rd: Reading, at: seq<nat>, places: seq<Place>, steps: seq<PathStep>, depth: nat)
    requires FreeAll(w, true, places, steps, depth).Some?
    ensures AllAgree(w, rd, at, places, 0, steps, 0, FreeAll(w, true, places, steps, depth).value)
    ensures !SomeOverlooks(w, places, steps, 0)
    decreases depth, 1
  {
    hide HasPath, Free;
    FreeEach(w, true, places, steps, depth);
    var results := FreeAll(w, true, places, steps, depth).value;
    forall i | 0 <= i < |places|
      ensures Agrees(results[i], HasPath(w, rd, at + [0 + i], places[i], steps), Overlooks(w, places[i], steps, 0))
    {
      DefiniteIsTrue(w, rd, at + [0 + i], places[i], steps, depth);
    }
  }

  ghost predicate Always(w: World, at: seq<nat>, place: Place, steps: seq<PathStep>) {
    forall rd :: HasPath(w, rd, at, place, steps)
  }

  ghost predicate Never(w: World, at: seq<nat>, place: Place, steps: seq<PathStep>) {
    forall rd :: !HasPath(w, rd, at, place, steps)
  }

  /** An answer that says all there is to say: `unknown` only when readings differ. */
  ghost predicate Exact(w: World, at: seq<nat>, place: Place, steps: seq<PathStep>, result: PathLookup) {
    && (result == Found <==> Always(w, at, place, steps))
    && (result == Missing <==> Never(w, at, place, steps))
  }

  /** When it stops, the careful walk without the guard is exact. */
  lemma CarefulIsExact(w: World, at: seq<nat>, place: Place, steps: seq<PathStep>, depth: nat)
    requires Free(w, true, place, steps, depth).Some?
    ensures Exact(w, at, place, steps, Free(w, true, place, steps, depth).value)
  {
    hide HasPath, Free;
    forall rd
      ensures Agrees(Free(w, true, place, steps, depth).value, HasPath(w, rd, at, place, steps), false)
    {
      DefiniteIsTrue(w, rd, at, place, steps, depth);
    }
    if Free(w, true, place, steps, depth).value != Missing {
      var yes := SomePresent(w, at, place, steps, depth);
    }
    if Free(w, true, place, steps, depth).value != Found {
      var no := SomeAbsent(w, at, place, steps, depth);
    }
  }

  /** No other answer than the careful one is exact. */
  lemma ExactIsCareful(w: World, at: seq<nat>, place: Place, steps: seq<PathStep>, depth: nat, result: PathLookup)
    requires Free(w, true, place, steps, depth).Some?
    ensures Exact(w, at, place, steps, result) <==> result == Free(w, true, place, steps, depth).value
  {
    hide HasPath, Free;
    CarefulIsExact(w, at, place, steps, depth);
    assert Always(w, at, place, steps) ==> !Never(w, at, place, steps) by {
      assert HasPath(w, ALL_OPEN, at, place, steps) || !HasPath(w, ALL_OPEN, at, place, steps);
    }
  }

  // ---------------------------------------------------------------- what hidden signatures take away

  lemma {:induction false} NothingOverlookedSame(w: World, place: Place, steps: seq<PathStep>, depth: nat)
    requires !Overlooks(w, place, steps, depth)
    ensures Free(w, true, place, steps, depth) == Free(w, false, place, steps, depth)
    decreases depth, 0
  {
    hide TurnAt, HiddenAt;
    if steps != [] && depth > 0 {
      match TurnAt(w, place, steps)
      case Answer(_) =>
      case Move(next, rest) => NothingOverlookedSame(w, next, rest, depth - 1);
      case AnyOf(places) => NothingOverlookedSameAll(w, places, steps, depth - 1);
      case EachOf(places) => NothingOverlookedSameAll(w, places, steps, depth - 1);
    }
  }

  lemma {:induction false} NothingOverlookedSameAll(w: World, places: seq<Place>, steps: seq<PathStep>, depth: nat)
    requires forall i :: 0 <= i < |places| ==> !Overlooks(w, places[i], steps, depth)
    ensures FreeAll(w, true, places, steps, depth) == FreeAll(w, false, places, steps, depth)
    decreases depth, |places| + 1
  {
    hide Overlooks;
    if places != [] {
      assert places[0] == places[0];
      NothingOverlookedSame(w, places[0], steps, depth);
      NothingOverlookedSameAll(w, places[1..], steps, depth);
    }
  }

  /** `missing` where the walk overlooked something should have been `unknown`. */
  function Doubted(overlooked: bool): PathLookup {
    if overlooked then Unknown else Missing
  }

  ghost predicate AllDoubted(w: World, places: seq<Place>, steps: seq<PathStep>, depth: nat, results: seq<PathLookup>) {
    |results| == |places| && forall i :: 0 <= i < |places| ==> results[i] == Doubted(Overlooks(w, places[i], steps, depth))
  }

  lemma CombineDoubted(w: World, places: seq<Place>, steps: seq<PathStep>, depth: nat, results: seq<PathLookup>)
    requires AllDoubted(w, places, steps, depth, results)
    ensures Combine(results) == Doubted(SomeOverlooks(w, places, steps, depth))
    ensures Combine(results + [Unknown]) == Unknown
    ensures places != [] ==> Agree(results) == Doubted(SomeOverlooks(w, places, steps, depth))
  {
    hide Overlooks;
    if i :| 0 <= i < |places| && Overlooks(w, places[i], steps, depth) {
      assert results[i] in results;
    }
    assert (results + [Unknown])[|results|] == Unknown;
    assert places != [] ==> results[0] in results;
  }

  lemma {:induction false} FreeAllOneMore(w: World, careful: bool, places: seq<Place>, last: Place, steps: seq<PathStep>, depth: nat)
    requires FreeAll(w, careful, places, steps, depth).Some? && Free(w, careful, last, steps, depth).Some?
    ensures FreeAll(w, careful, places + [last], steps, depth)
      == Some(FreeAll(w, careful, places, steps, depth).value + [Free(w, careful, last, steps, depth).value])
    decreases |places|
  {
    var all := places + [last];
    if places == [] {
      assert all[0] == last && all[1..] == [];
      assert FreeAll(w, careful, [], steps, depth) == Some([]);
      var final := [Free(w, careful, last, steps, depth).value];
      assert final + [] == [] + final;
      assert FreeAll(w, careful, all, steps, depth) == Some(final + []);
    } else {
      assert all[0] == places[0] && all[1..] == places[1..] + [last];
      FreeAllOneMore(w, careful, places[1..], last, steps, depth);
      var first, final := [Free(w, careful, places[0], steps, depth).value], [Free(w, careful, last, steps, depth).value];
      var rest := FreeAll(w, careful, places[1..], steps, depth).value;
      assert first + (rest + final) == (first + rest) + final;
    }
  }

  lemma {:induction false} MissingDoubted(w: World, place: Place, steps: seq<PathStep>, seen: Seen, depth: nat)
    requires Lookup(w, place, steps, seen, depth).Some? && Lookup(w, place, steps, seen, depth).value.result == Missing
    ensures Free(w, true, place, steps, depth + 1) == Some(Doubted(Overlooks(w, place, steps, depth)))
    decreases depth, 1
  {
    hide TurnAt, HiddenAt;
    var marked := Mark(place, steps, seen);
    if HiddenAt(w, place, steps) {
      HiddenDoubted(w, place, steps, marked, depth);
    } else {
      match TurnAt(w, place, steps)
      case Answer(_) =>
      case Move(next, rest) => MissingDoubted(w, next, rest, marked, depth - 1);
      case AnyOf(places) =>
        NoneFound(LookupAll(w, places, steps, marked, depth - 1).value.0);
        MissingDoubtedAll(w, places, steps, marked, depth - 1);
        CombineDoubted(w, places, steps, depth - 1, FreeAll(w, true, places, steps, depth).value);
      case EachOf(places) =>
        NoneFound(LookupAll(w, places, steps, marked, depth - 1).value.0);
        MissingDoubtedAll(w, places, steps, marked, depth - 1);
        CombineDoubted(w, places, steps, depth - 1, FreeAll(w, true, places, steps, depth).value);
    }
  }

  lemma NoneFound(results: seq<PathLookup>)
    ensures Combine(results) == Missing || Agree(results) == Missing ==>
      forall i :: 0 <= i < |results| ==> results[i] == Missing
    ensures Agree(results) == Missing ==> results != []
  {
    forall i | 0 <= i < |results| ensures results[i] in results {}
  }

  lemma {:induction false} HiddenDoubted(w: World, place: Place, steps: seq<PathStep>, marked: Seen, depth: nat)
    requires steps != [] && depth > 0 && HiddenAt(w, place, steps)
    requires TurnAt(w, place, steps).AnyOf? ==>
      var all := LookupAll(w, TurnAt(w, place, steps).places, steps, marked, depth - 1);
      all.Some? && Combine(all.value.0) == Missing
    ensures Free(w, true, place, steps, depth + 1) == Some(Unknown)
    decreases depth, 0
  {
    if place.AtDecl? {
      var d := w.decls[place.id];
      var bases := BasePlaces(w, d.file, d.declaration.bases);
      var open := AtType(d.file, OtherType);
      assert Free(w, true, open, steps, depth) == Some(Unknown);
      if bases != [] {
        NoneFound(LookupAll(w, bases, steps, marked, depth - 1).value.0);
        MissingDoubtedAll(w, bases, steps, marked, depth - 1);
      }
      hide Free, Lookup, Overlooks;
      FreeAllOneMore(w, true, bases, open, steps, depth);
      CombineDoubted(w, bases, steps, depth - 1, FreeAll(w, true, bases, steps, depth).value);
    }
  }

  lemma {:induction false} MissingDoubtedAll(w: World, places: seq<Place>, steps: seq<PathStep>, seen: Seen, depth: nat)
    requires LookupAll(w, places, steps, seen, depth).Some?
    requires forall i :: 0 <= i < |places| ==> LookupAll(w, places, steps, seen, depth).value.0[i] == Missing
    ensures FreeAll(w, true, places, steps, depth + 1).Some?
    ensures AllDoubted(w, places, steps, depth, FreeAll(w, true, places, steps, depth + 1).value)
    decreases depth, |places| + 2
  {
    hide Overlooks;
    if places != [] {
      var all := LookupAll(w, places, steps, seen, depth).value.0;
      var first := Lookup(w, places[0], steps, seen, depth).value;
      var rest := LookupAll(w, places[1..], steps, first.seen, depth).value.0;
      assert all == [first.result] + rest && all[0] == first.result;
      forall i | 0 <= i < |places[1..]| ensures rest[i] == Missing {
        assert all[i + 1] == rest[i];
      }
      MissingDoubted(w, places[0], steps, seen, depth);
      MissingDoubtedAll(w, places[1..], steps, first.seen, depth);
      assert forall i :: 0 < i < |places| ==> places[i] == places[1..][i - 1];
    }
  }

  /** `missing` means absent under every reading exactly when nothing was overlooked; the guard plays no part. */
  lemma MissingExactly(w: World, at: seq<nat>, place: Place, steps: seq<PathStep>, seen: Seen, depth: nat)
    requires Lookup(w, place, steps, seen, depth).Some? && Lookup(w, place, steps, seen, depth).value.result == Missing
    ensures Never(w, at, place, steps) <==> !Overlooks(w, place, steps, depth)
  {
    MissingDoubted(w, place, steps, seen, depth);
    hide HasPath, Free, Overlooks, Lookup;
    CarefulIsExact(w, at, place, steps, depth + 1);
  }

  // ---------------------------------------------------------------- what the guard takes away

  type Key = (DeclId, nat)

  /** The guard keys of the walk without its guard, in the order in which it enters declarations. */
  function Met(w: World, place: Place, steps: seq<PathStep>, depth: nat): seq<Key>
    decreases depth, 0
  {
    if steps == [] || depth == 0 then []
    else
      (if place.AtDecl? then [(place.id, |steps|)] else []) +
      match TurnAt(w, place, steps)
      case Answer(_) => []
      case Move(next, rest) => Met(w, next, rest, depth - 1)
      case AnyOf(places) => MetAll(w, places, steps, depth - 1)
      case EachOf(places) => MetAll(w, places, steps, depth - 1)
  }

  function MetAll(w: World, places: seq<Place>, steps: seq<PathStep>, depth: nat): seq<Key>
    decreases depth, |places| + 1
  {
    if places == [] then [] else Met(w, places[0], steps, depth) + MetAll(w, places[1..], steps, depth)
  }

  ghost function Keys(met: seq<Key>): Seen {
    set key | key in met
  }

  /** No key is met twice, nor one that was seen before. */
  ghost predicate Fresh(met: seq<Key>, seen: Seen) {
    Distinct(met) && forall key :: key in met ==> key !in seen
  }

  lemma FreshParts(a: seq<Key>, b: seq<Key>, seen: Seen)
    requires Fresh(a + b, seen)
    ensures Fresh(a, seen) && Fresh(b, seen + Keys(a))
    ensures seen + Keys(a + b) == (seen + Keys(a)) + Keys(b)
  {
    var all := a + b;
    assert forall i :: 0 <= i < |a| ==> all[i] == a[i];
    assert forall i :: 0 <= i < |b| ==> all[|a| + i] == b[i];
    forall key | key in b ensures key !in a && key in all {
      var j :| 0 <= j < |b| && b[j] == key;
      assert all[|a| + j] == key;
      forall i | 0 <= i < |a| ensures a[i] != key {
        assert all[i] != all[|a| + j];
      }
    }
  }

  /** As long as no key is met twice the guard is idle: the walk is the one without it. */
  lemma {:induction false} GuardIdle(w: World, place: Place, steps: seq<PathStep>, seen: Seen, depth: nat)
    requires Free(w, false, place, steps, depth).Some? && Fresh(Met(w, place, steps, depth), seen)
    ensures Lookup(w, place, steps, seen, depth)
      == Some(Walked(Free(w, false, place, steps, depth).value, seen + Keys(Met(w, place, steps, depth))))
    decreases depth, 0
  {
    hide TurnAt, Fresh;
    if steps == [] {
      assert seen + Keys([]) == seen;
    } else {
      var own: seq<Key> := if place.AtDecl? then [(place.id, |steps|)] else [];
      var rest := Below(w, place, steps, depth);
      assert Met(w, place, steps, depth) == own + rest;
      FreshParts(own, rest, seen);
      GuardPasses(place, steps, seen, own);
      var marked := Mark(place, steps, seen);
      match TurnAt(w, place, steps)
      case Answer(_) => assert marked + Keys([]) == marked;
      case Move(next, rest) => GuardIdle(w, next, rest, marked, depth - 1);
      case AnyOf(places) => GuardIdleAll(w, places, steps, marked, depth - 1);
      case EachOf(places) => GuardIdleAll(w, places, steps, marked, depth - 1);
    }
  }

  /** The keys met after entering a place. */
  function Below(w: World, place: Place, steps: seq<PathStep>, depth: nat): seq<Key>
    requires steps != [] && depth > 0
  {
    match TurnAt(w, place, steps)
    case Answer(_) => []
    case Move(next, rest) => Met(w, next, rest, depth - 1)
    case AnyOf(places) => MetAll(w, places, steps, depth - 1)
    case EachOf(places) => MetAll(w, places, steps, depth - 1)
  }

  lemma GuardPasses(place: Place, steps: seq<PathStep>, seen: Seen, own: seq<Key>)
    requires own == (if place.AtDecl? then [(place.id, |steps|)] else []) && Fresh(own, seen)
    ensures !Revisits(place, steps, seen) && Mark(place, steps, seen) == seen + Keys(own)
  {
    if place.AtDecl? {
      assert own[0] in own;
    }
  }

  lemma {:induction false} GuardIdleAll(w: World, places: seq<Place>, steps: seq<PathStep>, seen: Seen, depth: nat)
    requires FreeAll(w, false, places, steps, depth).Some? && Fresh(MetAll(w, places, steps, depth), seen)
    ensures LookupAll(w, places, steps, seen, depth)
      == Some((FreeAll(w, false, places, steps, depth).value, seen + Keys(MetAll(w, places, steps, depth))))
    decreases depth, |places| + 1
  {
    hide Fresh;
    if places == [] {
      assert seen + Keys([]) == seen;
    } else {
      FreshParts(Met(w, places[0], steps, depth), MetAll(w, places[1..], steps, depth), seen);
      GuardIdle(w, places[0], steps, seen, depth);
      GuardIdleAll(w, places[1..], steps, seen + Keys(Met(w, places[0], steps, depth)), depth);
    }
  }

  /** An answer under the guard is the answer without it, or `unknown`. */
  ghost predicate NoMore(a: PathLookup, b: PathLookup) {
    a == Unknown || a == b
  }

  ghost predicate NoMoreAll(a: seq<PathLookup>, b: seq<PathLookup>) {
    |a| == |b| && forall i :: 0 <= i < |a| ==> NoMore(a[i], b[i])
  }

  lemma CombineNoMore(a: seq<PathLookup>, b: seq<PathLookup>)
    requires NoMoreAll(a, b)
    ensures NoMore(Combine(a), Combine(b)) && NoMore(Agree(a), Agree(b))
  {
    forall i | 0 <= i < |a| ensures a[i] in a && b[i] in b && NoMore(a[i], b[i]) {}
  }

  lemma {:induction false} GuardOnlyHides(w: World, place: Place, steps: seq<PathStep>, seen: Seen, depth: nat)
    requires Free(w, false, place, steps, depth).Some?
    ensures Lookup(w, place, steps, seen, depth).Some?
    ensures NoMore(Lookup(w, place, steps, seen, depth).value.result, Free(w, false, place, steps, depth).value)
    decreases depth, 0
  {
    hide TurnAt;
    if steps != [] && !Revisits(place, steps, seen) {
      var marked := Mark(place, steps, seen);
      match TurnAt(w, place, steps)
      case Answer(_) =>
      case Move(next, rest) => GuardOnlyHides(w, next, rest, marked, depth - 1);
      case AnyOf(places) => GuardOnlyHidesAll(w, places, steps, marked, depth - 1);
      case EachOf(places) => GuardOnlyHidesAll(w, places, steps, marked, depth - 1);
    }
  }

  lemma {:induction false} GuardOnlyHidesAll(w: World, places: seq<Place>, steps: seq<PathStep>, seen: Seen, depth: nat)
    requires FreeAll(w, false, places, steps, depth).Some?
    ensures LookupAll(w, places, steps, seen, depth).Some?
    ensures NoMoreAll(LookupAll(w, places, steps, seen, depth).value.0, FreeAll(w, false, places, steps, depth).value)
    ensures var a, b := LookupAll(w, places, steps, seen, depth).value.0, FreeAll(w, false, places, steps, depth).value;
      NoMore(Combine(a), Combine(b)) && NoMore(Agree(a), Agree(b))
    decreases depth, |places| + 1
  {
    if places != [] {
      GuardOnlyHides(w, places[0], steps, seen, depth);
      GuardOnlyHidesAll(w, places[1..], steps, Lookup(w, places[0], steps, seen, depth).value.seen, depth);
      var a, b := LookupAll(w, places, steps, seen, depth).value.0, FreeAll(w, false, places, steps, depth).value;
      hide Free, Lookup, NoMore;
      assert NoMoreAll(a, b);
    }
    CombineNoMore(LookupAll(w, places, steps, seen, depth).value.0, FreeAll(w, false, places, steps, depth).value);
  }

  /** The walk of a declaration is exact when it overlooks nothing and meets no key twice. */
  lemma LookupIsExact(w: World, at: seq<nat>, id: DeclId, steps: seq<PathStep>, depth: nat)
    requires Free(w, false, AtDecl(id), steps, depth).Some?
    requires !Overlooks(w, AtDecl(id), steps, depth) && Distinct(Met(w, AtDecl(id), steps, depth))
    ensures Lookup(w, AtDecl(id), steps, {}, depth).Some?
    ensures Exact(w, at, AtDecl(id), steps, Lookup(w, AtDecl(id), steps, {}, depth).value.result)
  {
    hide HasPath, Free, Overlooks, Lookup, Met;
    GuardIdle(w, AtDecl(id), steps, {}, depth);
    NothingOverlookedSame(w, AtDecl(id), steps, depth);
    CarefulIsExact(w, at, AtDecl(id), steps, depth);
  }

  // ---------------------------------------------------------------- declarations that hide nothing

  /** A property named as written, or a signature without a name; and so in the types below. */
  predicate PlainSignature(m: Signature)
    decreases m
  {
    match m
    case Property(text, declares, annotation) => declares == Only(text) && (annotation.Some? ==> PlainType(annotation.value))
    case OtherSignature(declares) => declares.NoName?
  }

  predicate PlainType(node: TypeNode)
    decreases node
  {
    match node
    case TypeLiteral(members) => forall i :: 0 <= i < |members| ==> PlainSignature(members[i])
    case Parenthesized(inner) => PlainType(inner)
    case Operator(inner) => PlainType(inner)
    case Intersection(parts) => forall i :: 0 <= i < |parts| ==> PlainType(parts[i])
    case Union(parts) => forall i :: 0 <= i < |parts| ==> PlainType(parts[i])
    case ArrayOf(element) => PlainType(element)
    case IndexedAccess(indexed, _) => PlainType(indexed)
    case Reference(_, _, args) => forall i :: 0 <= i < |args| ==> PlainType(args[i])
    case OtherType => true
  }

  predicate PlainDeclaration(d: Declaration) {
    match d
    case Alias(aliased) => PlainType(aliased)
    case Interface(members, _) => forall i :: 0 <= i < |members| ==> PlainSignature(members[i])
  }

  /** Every declaration in reach names its properties as written and has no other named signature. */
  ghost predicate NothingHidden(w: World, id: DeclId) {
    forall d :: d in Scope(w, id) ==> PlainDeclaration(w.decls[d].declaration)
  }

  /** A place that a walk from `id` can come to. */
  ghost predicate InReach(w: World, id: DeclId, place: Place) {
    match place
    case AtDecl(d) => Reachable(RefGraph(w), id, d)
    case AtType(file, node) => PlainType(node) && forall r :: r in Refs(w, file, node) ==> Reachable(RefGraph(w), id, r)
  }

  lemma PlainShowsAll(members: seq<Signature>, name: string)
    requires forall i :: 0 <= i < |members| ==> PlainSignature(members[i])
    ensures !Hidden(members, name)
  {
    if Hidden(members, name) {
      var k :| 0 <= k < |members| && MayDeclare(members[k], name);
      assert PlainSignature(members[k]) && members[k].Property? && members[k].text == name;
      FirstPropertyFound(members, name);
    }
  }

  lemma FoundPlain(members: seq<Signature>, name: string)
    requires (forall i :: 0 <= i < |members| ==> PlainSignature(members[i])) && FindProperty(members, name).Some?
    ensures PlainSignature(FindProperty(members, name).value)
  {
    var k :| 0 <= k < |members| && members[k] == FindProperty(members, name).value;
  }

  lemma {:induction false} PartInReach(w: World, id: DeclId, file: File, parts: seq<TypeNode>, i: nat)
    requires i < |parts| && (forall i :: 0 <= i < |parts| ==> PlainType(parts[i]))
    requires forall r :: r in PartRefs(w, file, parts) ==> Reachable(RefGraph(w), id, r)
    ensures InReach(w, id, AtType(file, parts[i]))
  {
    if i > 0 {
      PartInReach(w, id, file, parts[1..], i - 1);
    }
  }

  lemma {:induction false} BaseInReach(w: World, id: DeclId, file: File, bases: seq<Heritage>, i: nat)
    requires i < |bases| && forall r :: r in BaseRefs(w, file, bases) ==> Reachable(RefGraph(w), id, r)
    ensures InReach(w, id, BasePlaces(w, file, bases)[i])
  {
    if i > 0 {
      BaseInReach(w, id, file, bases[1..], i - 1);
    } else if bases[0].Named? && Resolved(w, file, bases[0].name).Some? {
      assert Resolved(w, file, bases[0].name).value in NameRefs(w, file, bases[0].name);
    }
  }

  lemma DeclReaches(w: World, id: DeclId, d: DeclId)
    requires Reachable(RefGraph(w), id, d) && d in w.decls
    ensures d in Scope(w, id)
    ensures forall r :: r in DeclRefs(w, d) ==> Reachable(RefGraph(w), id, r)
  {
    forall r | r in DeclRefs(w, d) ensures Reachable(RefGraph(w), id, r) {
      assert Edge(RefGraph(w), d, r);
      ReachStep(RefGraph(w), id, d, r);
    }
  }

  ghost predicate AllInReach(w: World, id: DeclId, places: seq<Place>) {
    forall i :: 0 <= i < |places| ==> InReach(w, id, places[i])
  }

  /** A turn stays in reach, and nothing is hidden there. */
  lemma TurnInReach(w: World, id: DeclId, place: Place, steps: seq<PathStep>)
    requires NothingHidden(w, id) && InReach(w, id, place) && steps != []
    ensures !HiddenAt(w, place, steps)
    ensures match TurnAt(w, place, steps)
      case Answer(_) => true
      case Move(next, _) => InReach(w, id, next)
      case AnyOf(places) => AllInReach(w, id, places)
      case EachOf(places) => AllInReach(w, id, places)
  {
    match place
    case AtDecl(d) =>
      if d in w.decls {
        DeclReaches(w, id, d);
        DeclTurnInReach(w, id, d, steps);
      }
    case AtType(file, node) => TypeTurnInReach(w, id, file, node, steps);
  }

  lemma DeclTurnInReach(w: World, id: DeclId, d: DeclId, steps: seq<PathStep>)
    requires d in w.decls && steps != [] && PlainDeclaration(w.decls[d].declaration)
    requires forall r :: r in DeclRefs(w, d) ==> Reachable(RefGraph(w), id, r)
    ensures !HiddenAt(w, AtDecl(d), steps)
    ensures match TurnAt(w, AtDecl(d), steps)
      case Answer(_) => true
      case Move(next, _) => InReach(w, id, next)
      case AnyOf(places) => AllInReach(w, id, places)
      case EachOf(places) => false
  {
    hide Reachable, PlainType, Scope;
    var file := w.decls[d].file;
    match w.decls[d].declaration
    case Alias(_) =>
    case Interface(members, bases) =>
      if steps[0].Member? {
        PlainShowsAll(members, steps[0].name);
        match FindProperty(members, steps[0].name)
        case Some(p) =>
          FoundPlain(members, steps[0].name);
          if p.annotation.Some? {
            FoundMember(w, file, members, steps[0].name);
          }
        case None =>
          forall i | 0 <= i < |bases| ensures InReach(w, id, BasePlaces(w, file, bases)[i]) {
            BaseInReach(w, id, file, bases, i);
          }
      }
  }

  lemma TypeTurnInReach(w: World, id: DeclId, file: File, node: TypeNode, steps: seq<PathStep>)
    requires InReach(w, id, AtType(file, node)) && steps != []
    ensures !HiddenAt(w, AtType(file, node), steps)
    ensures match TurnAt(w, AtType(file, node), steps)
      case Answer(_) => true
      case Move(next, _) => InReach(w, id, next)
      case AnyOf(places) => AllInReach(w, id, places)
      case EachOf(places) => AllInReach(w, id, places)
  {
    hide Reachable, Scope;
    match node
    case TypeLiteral(members) =>
      if steps[0].Member? {
        PlainShowsAll(members, steps[0].name);
        if FindProperty(members, steps[0].name).Some? {
          FoundPlain(members, steps[0].name);
          if FindProperty(members, steps[0].name).value.annotation.Some? {
            FoundMember(w, file, members, steps[0].name);
          }
        }
      }
    case Intersection(parts) => PartsInReach(w, id, file, parts);
    case Union(parts) => PartsInReach(w, id, file, parts);
    case Reference(name, _, _) =>
      if Resolved(w, file, name).Some? {
        assert Resolved(w, file, name).value in NameRefs(w, file, name);
      }
    case _ =>
  }

  lemma PartsInReach(w: World, id: DeclId, file: File, parts: seq<TypeNode>)
    requires forall i :: 0 <= i < |parts| ==> PlainType(parts[i])
    requires forall r :: r in PartRefs(w, file, parts) ==> Reachable(RefGraph(w), id, r)
    ensures AllInReach(w, id, PartPlaces(file, parts))
  {
    hide Reachable, InReach;
    forall i | 0 <= i < |parts| ensures InReach(w, id, PartPlaces(file, parts)[i]) {
      PartInReach(w, id, file, parts, i);
    }
  }

  /** Where the declarations in reach hide nothing, no walk overlooks anything. */
  lemma {:induction false} PlainOverlooksNothing(w: World, id: DeclId, place: Place, steps: seq<PathStep>, depth: nat)
    requires NothingHidden(w, id) && InReach(w, id, place)
    ensures !Overlooks(w, place, steps, depth)
    decreases depth
  {
    hide NothingHidden, InReach, TurnAt, HiddenAt;
    if steps != [] && depth > 0 {
      TurnInReach(w, id, place, steps);
      match TurnAt(w, place, steps)
      case Answer(_) =>
      case Move(next, rest) => PlainOverlooksNothing(w, id, next, rest, depth - 1);
      case AnyOf(places) =>
        forall i | 0 <= i < |places| ensures !Overlooks(w, places[i], steps, depth - 1) {
          PlainOverlooksNothing(w, id, places[i], steps, depth - 1);
        }
      case EachOf(places) =>
        forall i | 0 <= i < |places| ensures !Overlooks(w, places[i], steps, depth - 1) {
          PlainOverlooksNothing(w, id, places[i], steps, depth - 1);
        }
    }
  }
}
