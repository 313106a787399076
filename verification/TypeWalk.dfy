module TypeWalk {
  // The three-valued presence walk `lookupPath` of scripts/gen-config-catalog.ts, and what `found` and
  // `missing` mean.

  import opened Common

  type DeclId = string
  type File = string

  datatype PathStep = Member(name: string) | ArrayHop

  datatype TypeNode =
    | TypeLiteral(members: seq<Signature>)
    | Parenthesized(inner: TypeNode)
    | Intersection(parts: seq<TypeNode>)
    | Union(parts: seq<TypeNode>)
    | ArrayOf(element: TypeNode)
    | Operator(inner: TypeNode)
    | IndexedAccess(indexed: TypeNode, index: Option<string>)
    | Reference(name: string, qualified: bool, args: seq<TypeNode>)
    | OtherType

  /** The member names a signature declares: one, possibly any (an index signature, a computed name), or none. */
  datatype Names = Only(name: string) | AnyName | NoName

  /**
   * A property signature, with or without a type, or a method, index, accessor or call signature. `text` is
   * the name as written: for a quoted name it has the quotes, so it differs from the name declared.
   */
  datatype Signature =
    | Property(text: string, declares: Names, annotation: Option<TypeNode>)
    | OtherSignature(declares: Names)

  datatype Heritage = Named(name: string) | OpaqueBase

  datatype Declaration = Interface(members: seq<Signature>, bases: seq<Heritage>) | Alias(aliased: TypeNode)

  datatype Declared = Declared(file: File, declaration: Declaration)

  /** `resolve` is name resolution from a file; `None` is a type out of the walk's reach. */
  datatype World = World(decls: map<DeclId, Declared>, resolve: (File, string) -> Option<DeclId>)

  /** Where a walk stands: at a named declaration, or at a type written in a file. */
  datatype Place = AtDecl(id: DeclId) | AtType(file: File, node: TypeNode)

  datatype PathLookup = Found | Missing | Unknown

  type Seen = set<(DeclId, nat)>

  datatype Walked = Walked(result: PathLookup, seen: Seen)

  const PASSTHROUGH_WRAPPERS := {"Partial", "Required", "Readonly", "NonNullable"}
  const ARRAY_NAMES := {"Array", "ReadonlyArray"}

  /** Any found wins, else any unknown taints, else missing. */
  function Combine(results: seq<PathLookup>): PathLookup {
    if Found in results then Found else if Unknown in results then Unknown else Missing
  }

  /** Presence on a union is definite only when every branch agrees. */
  function Agree(results: seq<PathLookup>): PathLookup {
    if forall r :: r in results ==> r == Found then Found
    else if forall r :: r in results ==> r == Missing then Missing
    else Unknown
  }

  /** The walk compares the step with the text of the property's name. */
  function FindProperty(members: seq<Signature>, name: string): (r: Option<Signature>)
    ensures r.Some? ==> r.value in members && r.value.Property? && r.value.text == name
  {
    if members == [] then None
    else if members[0].Property? && members[0].text == name then Some(members[0])
    else FindProperty(members[1..], name)
  }

  predicate MayDeclare(m: Signature, name: string) {
    m.declares == AnyName || m.declares == Only(name)
  }

  /** The walk sees no property of that text, yet some signature may declare the name. */
  predicate Hidden(members: seq<Signature>, name: string) {
    FindProperty(members, name).None? && exists k :: 0 <= k < |members| && MayDeclare(members[k], name)
  }

  function Resolved(w: World, file: File, name: string): Option<DeclId> {
    var d := w.resolve(file, name);
    if d.Some? && d.value in w.decls then d else None
  }

  /** The declaration a name stands for, or an opaque type when it is out of reach. */
  function NamePlace(w: World, file: File, name: string): (place: Place)
    ensures place.AtDecl? ==> w.resolve(file, name) == Some(place.id) && place.id in w.decls
    ensures place.AtType? ==> place == AtType(file, OtherType) && forall id :: w.resolve(file, name) == Some(id) ==> id !in w.decls
  {
    match Resolved(w, file, name)
    case Some(id) => AtDecl(id)
    case None => AtType(file, OtherType)
  }

  function BasePlaces(w: World, file: File, bases: seq<Heritage>): (places: seq<Place>)
    ensures |places| == |bases|
    ensures forall i :: 0 <= i < |bases| ==>
      places[i] == if bases[i].Named? then NamePlace(w, file, bases[i].name) else AtType(file, OtherType)
  {
    if bases == [] then []
    else [if bases[0].Named? then NamePlace(w, file, bases[0].name) else AtType(file, OtherType)]
         + BasePlaces(w, file, bases[1..])
  }

  function PartPlaces(file: File, parts: seq<TypeNode>): (places: seq<Place>)
    ensures |places| == |parts| && forall i :: 0 <= i < |parts| ==> places[i] == AtType(file, parts[i])
  {
    seq(|parts|, i requires 0 <= i < |parts| => AtType(file, parts[i]))
  }

  /**
   * What the walk does at a place: answer, move on, or consult several places. This is the body of
   * `lookupPath` for a nonempty path, apart from the guard on named declarations.
   */
  datatype Turn =
    | Answer(result: PathLookup)
    | Move(place: Place, steps: seq<PathStep>)
    | AnyOf(places: seq<Place>)
    | EachOf(places: seq<Place>)

  function IntoProperty(file: File, p: Signature, steps: seq<PathStep>): Turn
    requires p.Property? && steps != []
  {
    if |steps| == 1 then Answer(Found)
    else if p.annotation.Some? then Move(AtType(file, p.annotation.value), steps[1..])
    else Answer(Unknown)
  }

  function TurnAtDecl(w: World, d: Declared, steps: seq<PathStep>): Turn
    requires steps != []
  {
    match d.declaration
    case Alias(aliased) => Move(AtType(d.file, aliased), steps)
    case Interface(members, bases) =>
      if steps[0].ArrayHop? then Answer(Unknown)
      else match FindProperty(members, steps[0].name)
        case Some(p) => IntoProperty(d.file, p, steps)
        case None => if bases == [] then Answer(Missing) else AnyOf(BasePlaces(w, d.file, bases))
  }

  function TurnAtType(w: World, file: File, node: TypeNode, steps: seq<PathStep>): Turn
    requires steps != []
  {
    match node
    case TypeLiteral(members) =>
      if steps[0].ArrayHop? then Answer(Unknown)
      else (match FindProperty(members, steps[0].name)
        case Some(p) => IntoProperty(file, p, steps)
        case None => Answer(Missing))
    case Parenthesized(inner) => Move(AtType(file, inner), steps)
    case Operator(inner) => Move(AtType(file, inner), steps)
    case Intersection(parts) => AnyOf(PartPlaces(file, parts))
    case Union(parts) => EachOf(PartPlaces(file, parts))
    case ArrayOf(element) =>
      if steps[0].ArrayHop? then Move(AtType(file, element), steps[1..]) else Answer(Unknown)
    case IndexedAccess(indexed, index) =>
      if index.Some? then Move(AtType(file, indexed), [Member(index.value)] + steps) else Answer(Unknown)
    case Reference(name, qualified, args) =>
      if name in PASSTHROUGH_WRAPPERS && args != [] then Move(AtType(file, args[0]), steps)
      else if name in ARRAY_NAMES && args != [] then
        (if steps[0].ArrayHop? then Move(AtType(file, args[0]), steps[1..]) else Answer(Unknown))
      else if qualified then Answer(Unknown)
      else Move(NamePlace(w, file, name), steps)
    case OtherType => Answer(Unknown)
  }

  /** A declaration outside the world is opaque, like an unresolved name. */
  function TurnAt(w: World, place: Place, steps: seq<PathStep>): Turn
    requires steps != []
  {
    match place
    case AtDecl(id) => if id in w.decls then TurnAtDecl(w, w.decls[id], steps) else Answer(Unknown)
    case AtType(file, node) => TurnAtType(w, file, node, steps)
  }

  /** A literal or an interface at which a signature is hidden from the walk. */
  predicate HiddenAt(w: World, place: Place, steps: seq<PathStep>)
    requires steps != []
  {
    steps[0].Member? &&
    match place
    case AtDecl(id) =>
      id in w.decls && w.decls[id].declaration.Interface? && Hidden(w.decls[id].declaration.members, steps[0].name)
    case AtType(_, node) => node.TypeLiteral? && Hidden(node.members, steps[0].name)
  }

  /**
   * The turn a walk would take that knows of hidden signatures: they make a literal's answer unknown and
   * stand beside an interface's bases. Elsewhere it is the turn of `lookupPath`.
   */
  function CarefulTurn(w: World, place: Place, steps: seq<PathStep>): Turn
    requires steps != []
  {
    if !HiddenAt(w, place, steps) then TurnAt(w, place, steps)
    else if place.AtType? then Answer(Unknown)
    else
      var d := w.decls[place.id];
      AnyOf(BasePlaces(w, d.file, d.declaration.bases) + [AtType(d.file, OtherType)])
  }

  /** The guard: entering a named declaration again with as many steps left. */
  predicate Revisits(place: Place, steps: seq<PathStep>, seen: Seen) {
    place.AtDecl? && (place.id, |steps|) in seen
  }

  function Mark(place: Place, steps: seq<PathStep>, seen: Seen): Seen {
    if place.AtDecl? then seen + {(place.id, |steps|)} else seen
  }

  /** `lookupPath` with `depth` nested calls at most; `None` when that is not enough. */
  function Lookup(w: World, place: Place, steps: seq<PathStep>, seen: Seen, depth: nat): Option<Walked>
    decreases depth, 0
  {
    if steps == [] then Some(Walked(Found, seen))
    else if Revisits(place, steps, seen) then Some(Walked(Unknown, seen))
    else if depth == 0 then None
    else
      var marked := Mark(place, steps, seen);
      match TurnAt(w, place, steps)
      case Answer(result) => Some(Walked(result, marked))
      case Move(next, rest) => Lookup(w, next, rest, marked, depth - 1)
      case AnyOf(places) =>
        (match LookupAll(w, places, steps, marked, depth - 1)
         case None => None
         case Some(all) => Some(Walked(Combine(all.0), all.1)))
      case EachOf(places) =>
        (match LookupAll(w, places, steps, marked, depth - 1)
         case None => None
         case Some(all) => Some(Walked(Agree(all.0), all.1)))
  }

  /** The places one after the other, sharing `seen`. */
  function LookupAll(w: World, places: seq<Place>, steps: seq<PathStep>, seen: Seen, depth: nat): (r: Option<(seq<PathLookup>, Seen)>)
    ensures r.Some? ==> |r.value.0| == |places|
    decreases depth, |places| + 1
  {
    if places == [] then Some(([], seen))
    else match Lookup(w, places[0], steps, seen, depth)
      case None => None
      case Some(first) =>
        match LookupAll(w, places[1..], steps, first.seen, depth)
        case None => None
        case Some(rest) => Some(([first.result] + rest.0, rest.1))
  }

  // ---------------------------------------------------------------- meaning

  /**
   * One way to read a type: which branch each union takes, and which paths the parts beyond the
   * walk's sight have. Both may differ at every address, so a recursive type may take
   * another branch each time it unfolds.
   */
  datatype Reading = Reading(branch: seq<nat> -> nat, opaque_: (seq<nat>, seq<PathStep>) -> bool)

  /** The property of that name that counts: the first one. */
  predicate FirstProperty(members: seq<Signature>, name: string, k: nat) {
    && k < |members| && members[k].Property? && members[k].text == name
    && forall j :: 0 <= j < k ==> members[j].Property? ==> members[j].text != name
  }

  predicate DeclaresProperty(members: seq<Signature>, name: string) {
    exists k :: 0 <= k < |members| && members[k].Property? && members[k].text == name
  }

  /**
   * The path is present under one reading: some finite unfolding reaches its last member. A union
   * is the branch taken; an intersection has what any part has; an own property hides inherited
   * ones; an array step enters array elements only. Up to the reading is whatever the syntax does not
   * enumerate, which includes what a hidden signature has.
   */
  least predicate HasPath(w: World, rd: Reading, at: seq<nat>, place: Place, steps: seq<PathStep>) {
    steps == [] ||
    match place
    case AtDecl(id) =>
      if id !in w.decls then rd.opaque_(at, steps)
      else (
        var file := w.decls[id].file;
        match w.decls[id].declaration
        case Alias(aliased) => HasPath(w, rd, at + [0], AtType(file, aliased), steps)
        case Interface(members, bases) =>
          if steps[0].ArrayHop? then rd.opaque_(at, steps)
          else if DeclaresProperty(members, steps[0].name) then HasProperty(w, rd, at, file, members, steps)
          else
            || (Hidden(members, steps[0].name) && rd.opaque_(at + [|bases|], steps))
            || exists i :: 0 <= i < |bases| && HasPath(w, rd, at + [i], BasePlaces(w, file, bases)[i], steps))
    case AtType(file, node) =>
      match node
      case TypeLiteral(members) =>
        if steps[0].ArrayHop? || Hidden(members, steps[0].name) then rd.opaque_(at, steps)
        else HasProperty(w, rd, at, file, members, steps)
      case Parenthesized(inner) => HasPath(w, rd, at + [0], AtType(file, inner), steps)
      case Operator(inner) => HasPath(w, rd, at + [0], AtType(file, inner), steps)
      case Intersection(parts) => exists i :: 0 <= i < |parts| && HasPath(w, rd, at + [i], AtType(file, parts[i]), steps)
      case Union(parts) =>
        parts == [] || var i := rd.branch(at) % |parts|; HasPath(w, rd, at + [i], AtType(file, parts[i]), steps)
      case ArrayOf(element) =>
        if steps[0].ArrayHop? then HasPath(w, rd, at + [0], AtType(file, element), steps[1..]) else rd.opaque_(at, steps)
      case IndexedAccess(indexed, index) =>
        if index.Some? then HasPath(w, rd, at + [0], AtType(file, indexed), [Member(index.value)] + steps)
        else rd.opaque_(at, steps)
      case Reference(name, qualified, args) =>
        if name in {"Partial", "Required", "Readonly", "NonNullable"} && args != [] then HasPath(w, rd, at + [0], AtType(file, args[0]), steps)
        else if name in {"Array", "ReadonlyArray"} && args != [] then
          (if steps[0].ArrayHop? then HasPath(w, rd, at + [0], AtType(file, args[0]), steps[1..]) else rd.opaque_(at, steps))
        else if qualified then rd.opaque_(at, steps)
        else HasPath(w, rd, at + [0], NamePlace(w, file, name), steps)
      case OtherType => rd.opaque_(at, steps)
  }

  least predicate HasProperty(w: World, rd: Reading, at: seq<nat>, file: File, members: seq<Signature>, steps: seq<PathStep>) {
    steps != [] && steps[0].Member? &&
    exists k: nat :: FirstProperty(members, steps[0].name, k) &&
      (|steps| == 1
       || (members[k].annotation.None? && rd.opaque_(at, steps))
       || (members[k].annotation.Some? && HasPath(w, rd, at + [0], AtType(file, members[k].annotation.value), steps[1..])))
  }

  lemma {:induction false} FirstPropertyFound(members: seq<Signature>, name: string)
    ensures FindProperty(members, name).Some? <==> DeclaresProperty(members, name)
    ensures FindProperty(members, name).Some? ==>
      exists k: nat :: FirstProperty(members, name, k) && members[k] == FindProperty(members, name).value
    ensures forall k: nat, m: nat :: FirstProperty(members, name, k) && FirstProperty(members, name, m) ==> k == m
  {
    if members == [] || (members[0].Property? && members[0].text == name) {
      if members != [] {
        assert FirstProperty(members, name, 0);
      }
    } else {
      FirstPropertyFound(members[1..], name);
      if FindProperty(members, name).Some? {
        var k: nat :| FirstProperty(members[1..], name, k) && members[1..][k] == FindProperty(members[1..], name).value;
        assert FirstProperty(members, name, k + 1);
      }
      if DeclaresProperty(members, name) {
        var k :| 0 <= k < |members| && members[k].Property? && members[k].text == name;
        assert members[1..][k - 1] == members[k];
      }
    }
  }

  /** A definite answer is true, an unknown one is up to the reading. */
  ghost predicate AnswerMeans(result: PathLookup, present: bool, open: bool) {
    match result
    case Found => present
    case Missing => !present
    case Unknown => present <==> open
  }

  lemma PropertyMeans(w: World, rd: Reading, at: seq<nat>, file: File, members: seq<Signature>, steps: seq<PathStep>)
    requires steps != [] && steps[0].Member?
    ensures match FindProperty(members, steps[0].name)
      case None => !HasProperty(w, rd, at, file, members, steps)
      case Some(p) =>
        match IntoProperty(file, p, steps)
        case Answer(result) => AnswerMeans(result, HasProperty(w, rd, at, file, members, steps), rd.opaque_(at, steps))
        case Move(next, rest) =>
          HasProperty(w, rd, at, file, members, steps) <==> HasPath(w, rd, at + [0], next, rest)
  {
    FirstPropertyFound(members, steps[0].name);
  }

  ghost predicate AnyPresent(w: World, rd: Reading, at: seq<nat>, places: seq<Place>, steps: seq<PathStep>) {
    exists i :: 0 <= i < |places| && HasPath(w, rd, at + [i], places[i], steps)
  }

  /** The branch the reading takes has the path; a union without branches has every path. */
  ghost predicate BranchPresent(w: World, rd: Reading, at: seq<nat>, places: seq<Place>, steps: seq<PathStep>) {
    places == [] || var i := rd.branch(at) % |places|; HasPath(w, rd, at + [i], places[i], steps)
  }

  /** A turn says about presence what the place it is taken at says. */
  ghost predicate TurnMeans(w: World, rd: Reading, at: seq<nat>, place: Place, steps: seq<PathStep>, turn: Turn) {
    match turn
    case Answer(result) => AnswerMeans(result, HasPath(w, rd, at, place, steps), rd.opaque_(at, steps))
    case Move(next, rest) => HasPath(w, rd, at, place, steps) <==> HasPath(w, rd, at + [0], next, rest)
    case AnyOf(places) => HasPath(w, rd, at, place, steps) <==> AnyPresent(w, rd, at, places, steps)
    case EachOf(places) => HasPath(w, rd, at, place, steps) <==> BranchPresent(w, rd, at, places, steps)
  }

  lemma TurnSound(w: World, rd: Reading, at: seq<nat>, place: Place, steps: seq<PathStep>)
    requires steps != [] && !HiddenAt(w, place, steps)
    ensures TurnMeans(w, rd, at, place, steps, TurnAt(w, place, steps))
  {
    match place
    case AtDecl(id) =>
      if id in w.decls && w.decls[id].declaration.Interface? && steps[0].Member? {
        var d := w.decls[id];
        PropertyMeans(w, rd, at, d.file, d.declaration.members, steps);
        FirstPropertyFound(d.declaration.members, steps[0].name);
      }
    case AtType(file, node) =>
      match node
      case TypeLiteral(members) =>
        if steps[0].Member? {
          PropertyMeans(w, rd, at, file, members, steps);
          FirstPropertyFound(members, steps[0].name);
        }
      case Intersection(parts) =>
        assert forall i :: 0 <= i < |parts| ==> PartPlaces(file, parts)[i] == AtType(file, parts[i]);
      case _ =>
  }

  /** At a hidden signature the walk answers `missing` or goes on to the bases, which can still have the path. */
  lemma HiddenTurn(w: World, rd: Reading, at: seq<nat>, place: Place, steps: seq<PathStep>)
    requires steps != [] && HiddenAt(w, place, steps)
    ensures TurnAt(w, place, steps) == Answer(Missing) || TurnAt(w, place, steps).AnyOf?
    ensures TurnAt(w, place, steps).AnyOf? ==>
      AnyPresent(w, rd, at, TurnAt(w, place, steps).places, steps) ==> HasPath(w, rd, at, place, steps)
  {
    if place.AtDecl? {
      FirstPropertyFound(w.decls[place.id].declaration.members, steps[0].name);
    }
  }

  /**
   * On its way the walk comes to a literal or an interface that may declare the next name in a signature
   * it does not see.
   */
  ghost predicate Overlooks(w: World, place: Place, steps: seq<PathStep>, depth: nat)
    decreases depth
  {
    steps != [] && depth > 0 &&
    (|| HiddenAt(w, place, steps)
     || match TurnAt(w, place, steps)
        case Answer(_) => false
        case Move(next, rest) => Overlooks(w, next, rest, depth - 1)
        case AnyOf(places) => exists i :: 0 <= i < |places| && Overlooks(w, places[i], steps, depth - 1)
        case EachOf(places) => exists i :: 0 <= i < |places| && Overlooks(w, places[i], steps, depth - 1))
  }

  /** A definite answer agrees with presence; `missing` only if nothing was overlooked. */
  predicate Agrees(result: PathLookup, present: bool, overlooked: bool) {
    (result == Found ==> present) && (result == Missing && !overlooked ==> !present)
  }

  /**
   * Soundness of the walk, for every world, however recursive, and whatever was seen before:
   * `found` means present under every reading, so in every union branch; `missing` means present
   * under none, unless a signature was overlooked.
   */
  lemma {:induction false} LookupSound(
    w: World, rd: Reading, at: seq<nat>, place: Place, steps: seq<PathStep>, seen: Seen, depth: nat)
    requires Lookup(w, place, steps, seen, depth).Some?
    ensures Agrees(Lookup(w, place, steps, seen, depth).value.result, HasPath(w, rd, at, place, steps),
                   Overlooks(w, place, steps, depth))
    decreases depth, 0
  {
    hide HasPath, TurnAt, HiddenAt, AnyPresent, BranchPresent;
    if steps == [] {
      NoStepsLeft(w, rd, at, place);
    } else if !Revisits(place, steps, seen) {
      if HiddenAt(w, place, steps) {
        HiddenTurn(w, rd, at, place, steps);
      } else {
        TurnSound(w, rd, at, place, steps);
      }
      var marked := Mark(place, steps, seen);
      match TurnAt(w, place, steps)
      case Answer(_) =>
      case Move(next, rest) => LookupSound(w, rd, at + [0], next, rest, marked, depth - 1);
      case AnyOf(places) =>
        LookupAllSound(w, rd, at, places, 0, steps, marked, depth - 1);
        AnyOfSound(w, rd, at, places, steps, depth - 1, LookupAll(w, places, steps, marked, depth - 1).value.0);
      case EachOf(places) =>
        LookupAllSound(w, rd, at, places, 0, steps, marked, depth - 1);
        EachOfSound(w, rd, at, places, steps, depth - 1, LookupAll(w, places, steps, marked, depth - 1).value.0);
    }
  }

  lemma NoStepsLeft(w: World, rd: Reading, at: seq<nat>, place: Place)
    ensures HasPath(w, rd, at, place, [])
  {
  }

  ghost predicate AllAgree(
    w: World, rd: Reading, at: seq<nat>, places: seq<Place>, offset: nat, steps: seq<PathStep>, depth: nat, results: seq<PathLookup>)
  {
    |results| == |places| &&
    forall i :: 0 <= i < |places| ==>
      Agrees(results[i], HasPath(w, rd, at + [offset + i], places[i], steps), Overlooks(w, places[i], steps, depth))
  }

  ghost predicate SomeOverlooks(w: World, places: seq<Place>, steps: seq<PathStep>, depth: nat) {
    exists i :: 0 <= i < |places| && Overlooks(w, places[i], steps, depth)
  }

  lemma AnyOfSound(
    w: World, rd: Reading, at: seq<nat>, places: seq<Place>, steps: seq<PathStep>, depth: nat, results: seq<PathLookup>)
    requires AllAgree(w, rd, at, places, 0, steps, depth, results)
    ensures Agrees(Combine(results), AnyPresent(w, rd, at, places, steps), SomeOverlooks(w, places, steps, depth))
  {
    hide HasPath, Overlooks;
    if Combine(results) == Found {
      var i :| 0 <= i < |results| && results[i] == Found;
      assert HasPath(w, rd, at + [0 + i], places[i], steps);
    } else if Combine(results) == Missing && !SomeOverlooks(w, places, steps, depth) {
      forall i | 0 <= i < |places| ensures !HasPath(w, rd, at + [i], places[i], steps) {
        assert results[i] in results;
        assert !HasPath(w, rd, at + [0 + i], places[i], steps);
      }
    }
  }

  lemma EachOfSound(
    w: World, rd: Reading, at: seq<nat>, places: seq<Place>, steps: seq<PathStep>, depth: nat, results: seq<PathLookup>)
    requires AllAgree(w, rd, at, places, 0, steps, depth, results)
    ensures Agrees(Agree(results), BranchPresent(w, rd, at, places, steps), SomeOverlooks(w, places, steps, depth))
  {
    hide HasPath, Overlooks;
    if places != [] {
      var i := rd.branch(at) % |places|;
      assert results[i] in results;
      assert Agrees(results[i], HasPath(w, rd, at + [0 + i], places[i], steps), Overlooks(w, places[i], steps, depth));
    }
  }

  lemma {:induction false} LookupAllSound(
    w: World, rd: Reading, at: seq<nat>, places: seq<Place>, offset: nat, steps: seq<PathStep>, seen: Seen, depth: nat)
    requires LookupAll(w, places, steps, seen, depth).Some?
    ensures AllAgree(w, rd, at, places, offset, steps, depth, LookupAll(w, places, steps, seen, depth).value.0)
    decreases depth, |places| + 1
  {
    hide HasPath, Overlooks;
    if places != [] {
      LookupSound(w, rd, at + [offset], places[0], steps, seen, depth);
      var first := Lookup(w, places[0], steps, seen, depth).value;
      LookupAllSound(w, rd, at, places[1..], offset + 1, steps, first.seen, depth);
      var rest := LookupAll(w, places[1..], steps, first.seen, depth).value;
      var all := LookupAll(w, places, steps, seen, depth).value.0;
      assert all == [first.result] + rest.0;
      forall i | 0 <= i < |places|
        ensures Agrees(all[i], HasPath(w, rd, at + [offset + i], places[i], steps), Overlooks(w, places[i], steps, depth))
      {
        if i > 0 {
          assert Agrees(rest.0[i - 1], HasPath(w, rd, at + [offset + 1 + (i - 1)], places[1..][i - 1], steps),
                        Overlooks(w, places[1..][i - 1], steps, depth));
        } else {
          assert at + [offset + i] == at + [offset];
        }
      }
    }
  }
}
