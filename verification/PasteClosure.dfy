/** The worklist of scripts/gen-config-catalog.ts that pastes a config type together with everything it uses. */
module PasteClosure {
  type File = string
  type DeclKey = string

  datatype TypeRef = TypeRef(specifier: string, imported: string)

  /** What a bare name means in one file of the package. */
  datatype Resolution = Unresolved | Imported(ref: TypeRef) | Local(key: DeclKey)

  /** One declaration: its file, the type names it uses, and whether its members are documented. */
  datatype Decl = Decl(file: File, uses: seq<string>, documented: bool)

  datatype Package = Package(decls: map<DeclKey, Decl>, resolver: (File, string) -> Resolution, globals: set<string>)

  datatype Item = Item(name: string, from: File)

  datatype Paste = Paste(name: string, key: DeclKey)

  datatype Violation =
    | Undeclared(item: Item)
    | ConfigTypeImported(name: string)
    | PastedThenImported(name: string)
    | ImportedTwice(name: string)
    | DeclaredTwice(name: string)
    | ImportedThenPasted(name: string)
    | Undocumented(key: DeclKey)

  function Resolve(p: Package, item: Item): (r: Resolution)
    ensures r.Local? ==> r.key in p.decls
    ensures var named := p.resolver(item.from, item.name);
      r == named || (r == Unresolved && named.Local? && named.key !in p.decls)
  {
    var r := p.resolver(item.from, item.name);
    if r.Local? && r.key !in p.decls then Unresolved else r
  }

  function UsedBy(p: Package, key: DeclKey): (items: seq<Item>)
    requires key in p.decls
    ensures forall i :: i in items <==> i.from == p.decls[key].file && i.name in p.decls[key].uses && i.name !in p.globals
  {
    UsesOf(p.decls[key].uses, p.decls[key].file, p.globals)
  }

  function UsesOf(uses: seq<string>, file: File, globals: set<string>): (items: seq<Item>)
    ensures forall i :: i in items <==> i.from == file && i.name in uses && i.name !in globals
  {
    if uses == [] then []
    else (if uses[0] in globals then [] else [Item(uses[0], file)]) + UsesOf(uses[1..], file, globals)
  }

  lemma UsesFirst(name: string, rest: seq<string>, file: File, globals: set<string>)
    ensures UsesOf([name] + rest, file, globals)
      == (if name in globals then [] else [Item(name, file)]) + UsesOf(rest, file, globals)
    ensures UsesOf([], file, globals) == []
  {
    assert ([name] + rest)[1..] == rest;
  }

  /** The uses come in the order in which the declaration names them, repetitions included. */
  lemma {:induction false} UsesInOrder(a: seq<string>, b: seq<string>, file: File, globals: set<string>)
    ensures UsesOf(a + b, file, globals) == UsesOf(a, file, globals) + UsesOf(b, file, globals)
    ensures |a| == 1 && a[0] !in globals ==> UsesOf(a, file, globals) == [Item(a[0], file)]
  {
    hide UsesOf;
    if a == [] {
      assert a + b == b;
      UsesFirst("", b, file, globals);
    } else {
      UsesInOrder(a[1..], b, file, globals);
      UsesFirst(a[0], a[1..], file, globals);
      UsesFirst(a[0], a[1..] + b, file, globals);
      assert a == [a[0]] + a[1..] && a + b == [a[0]] + (a[1..] + b);
      if |a| == 1 {
        assert a[1..] == [];
      }
    }
  }

  // ---------------------------------------------------------------- what the fence must satisfy

  /** `next` is used by the declaration that `item` names. */
  predicate Uses(p: Package, item: Item, next: Item) {
    var r := Resolve(p, item);
    r.Local? && next in UsedBy(p, r.key)
  }

  ghost predicate Trail(p: Package, root: Item, t: seq<Item>) {
    t != [] && t[0] == root && forall i :: 0 <= i < |t| - 1 ==> Uses(p, t[i], t[i + 1])
  }

  /** A use of a name somewhere in the closure of the config type. */
  ghost predicate Reached(p: Package, root: Item, item: Item) {
    exists t :: Trail(p, root, t) && t[|t| - 1] == item
  }

  /** Each use means something the fence can carry, and the config type itself is package-local. */
  predicate Carried(p: Package, root: Item, item: Item) {
    var r := Resolve(p, item);
    match r
    case Unresolved => false
    case Imported(_) => item.name != root.name
    case Local(key) => p.decls[key].documented
  }

  /** No two uses of one name mean different things. */
  ghost predicate Unambiguous(p: Package, root: Item) {
    && (forall i :: Reached(p, root, i) ==> Carried(p, root, i))
    && (forall i, j :: Reached(p, root, i) && Reached(p, root, j) && i.name == j.name ==> Resolve(p, i) == Resolve(p, j))
  }

  /** The fence records exactly what `item` resolves to. */
  predicate Recorded(p: Package, pastes: seq<Paste>, refs: map<string, TypeRef>, item: Item) {
    var r := Resolve(p, item);
    match r
    case Unresolved => false
    case Imported(ref) => item.name in refs && refs[item.name] == ref
    case Local(key) => Paste(item.name, key) in pastes
  }

  lemma ReachRoot(p: Package, root: Item)
    ensures Reached(p, root, root)
  {
    assert Trail(p, root, [root]);
  }

  lemma ReachNext(p: Package, root: Item, item: Item, next: Item)
    requires Reached(p, root, item) && Uses(p, item, next)
    ensures Reached(p, root, next)
  {
    var t :| Trail(p, root, t) && t[|t| - 1] == item;
    assert Trail(p, root, t + [next]);
  }

  // ---------------------------------------------------------------- the worklist

  /** `pastedDeclByName` as read off the pastes. */
  predicate PastedAs(pasted: map<string, DeclKey>, pastes: seq<Paste>) {
    && (forall q :: q in pastes ==> q.name in pasted && pasted[q.name] == q.key)
    && (forall n :: n in pasted ==> Paste(n, pasted[n]) in pastes)
  }

  /** Pasted names and referenced names never clash, whatever the violations. */
  ghost predicate Fence(p: Package, root: Item, pastes: seq<Paste>, refs: map<string, TypeRef>, pasted: map<string, DeclKey>) {
    && PastedAs(pasted, pastes)
    && (forall i, j :: 0 <= i < j < |pastes| ==> pastes[i].name != pastes[j].name)
    && pasted.Keys !! refs.Keys
    && root.name !in refs
    && (forall q :: q in pastes ==> q.key in p.decls)
  }

  lemma FenceMeans(p: Package, root: Item, pastes: seq<Paste>, refs: map<string, TypeRef>, pasted: map<string, DeclKey>)
    requires Fence(p, root, pastes, refs, pasted)
    ensures PastedAs(pasted, pastes) && pasted.Keys !! refs.Keys && root.name !in refs
    ensures forall i, j :: 0 <= i < j < |pastes| ==> pastes[i].name != pastes[j].name
    ensures forall q :: q in pastes ==> q.name !in refs && q.key in p.decls
  {
  }

  lemma FencePaste(p: Package, root: Item, pastes: seq<Paste>, refs: map<string, TypeRef>, pasted: map<string, DeclKey>, q: Paste)
    requires Fence(p, root, pastes, refs, pasted) && q.name !in pasted && q.name !in refs && q.key in p.decls
    ensures Fence(p, root, pastes + [q], refs, pasted[q.name := q.key])
  {
  }

  lemma FenceRef(p: Package, root: Item, pastes: seq<Paste>, refs: map<string, TypeRef>, pasted: map<string, DeclKey>,
                 name: string, ref: TypeRef)
    requires Fence(p, root, pastes, refs, pasted) && name !in pasted && name != root.name
    ensures Fence(p, root, pastes, refs[name := ref], pasted)
  {
  }

  /** Nothing is recorded or queued that the config type does not reach. */
  ghost predicate Grounded(p: Package, root: Item, queue: seq<Item>, pastes: seq<Paste>, refs: map<string, TypeRef>) {
    && (forall i :: i in queue ==> Reached(p, root, i))
    && (forall q :: q in pastes ==> exists i :: Reached(p, root, i) && i.name == q.name && Resolve(p, i) == Local(q.key))
    && (forall n :: n in refs ==> exists i :: Reached(p, root, i) && i.name == n && Resolve(p, i) == Imported(refs[n]))
  }

  /** Every use inside a paste is either recorded or still queued. */
  ghost predicate Covered(p: Package, root: Item, queue: seq<Item>, pastes: seq<Paste>, refs: map<string, TypeRef>) {
    && (Recorded(p, pastes, refs, root) || root in queue)
    && (forall q, i :: q in pastes && q.key in p.decls && i in UsedBy(p, q.key) ==> Recorded(p, pastes, refs, i) || i in queue)
    && (forall q :: q in pastes && q.key in p.decls ==> p.decls[q.key].documented)
  }

  function NamesIn(p: Package): set<string> {
    set key, n | key in p.decls && n in p.decls[key].uses :: n
  }

  lemma DropRecorded(p: Package, root: Item, queue: seq<Item>, pastes: seq<Paste>, refs: map<string, TypeRef>)
    requires queue != [] && Recorded(p, pastes, refs, queue[0]) && Covered(p, root, queue, pastes, refs)
    ensures Covered(p, root, queue[1..], pastes, refs)
  {
    assert queue == [queue[0]] + queue[1..];
  }

  lemma AddRef(p: Package, root: Item, queue: seq<Item>, pastes: seq<Paste>, refs: map<string, TypeRef>)
    requires queue != [] && Covered(p, root, queue, pastes, refs)
    requires Resolve(p, queue[0]).Imported?
    requires queue[0].name in refs ==> refs[queue[0].name] == Resolve(p, queue[0]).ref
    ensures Covered(p, root, queue[1..], pastes, refs[queue[0].name := Resolve(p, queue[0]).ref])
  {
    var more := refs[queue[0].name := Resolve(p, queue[0]).ref];
    forall i | Recorded(p, pastes, refs, i) ensures Recorded(p, pastes, more, i) {}
    assert Covered(p, root, queue, pastes, more);
    DropRecorded(p, root, queue, pastes, more);
  }

  lemma AddPaste(p: Package, root: Item, queue: seq<Item>, pastes: seq<Paste>, refs: map<string, TypeRef>)
    requires queue != [] && Covered(p, root, queue, pastes, refs)
    requires Resolve(p, queue[0]).Local? && p.decls[Resolve(p, queue[0]).key].documented
    ensures var key := Resolve(p, queue[0]).key;
      Covered(p, root, queue[1..] + UsedBy(p, key), pastes + [Paste(queue[0].name, key)], refs)
  {
    var key := Resolve(p, queue[0]).key;
    var more, longer := pastes + [Paste(queue[0].name, key)], queue[1..] + UsedBy(p, key);
    forall i | Recorded(p, pastes, refs, i) ensures Recorded(p, more, refs, i) {}
    assert queue == [queue[0]] + queue[1..] && Recorded(p, more, refs, queue[0]);
    forall q, i | q in more && q.key in p.decls && i in UsedBy(p, q.key)
      ensures Recorded(p, more, refs, i) || i in longer
    {
      if q !in pastes {
        assert i in UsedBy(p, key);
      }
    }
  }

  lemma GroundPaste(p: Package, root: Item, queue: seq<Item>, pastes: seq<Paste>, refs: map<string, TypeRef>)
    requires queue != [] && Grounded(p, root, queue, pastes, refs) && Resolve(p, queue[0]).Local?
    ensures var key := Resolve(p, queue[0]).key;
      Grounded(p, root, queue[1..] + UsedBy(p, key), pastes + [Paste(queue[0].name, key)], refs)
  {
    var key := Resolve(p, queue[0]).key;
    assert queue[0] in queue;
    forall i | i in UsedBy(p, key) ensures Reached(p, root, i) {
      ReachNext(p, root, queue[0], i);
    }
  }

  lemma GroundRef(p: Package, root: Item, queue: seq<Item>, pastes: seq<Paste>, refs: map<string, TypeRef>)
    requires queue != [] && Grounded(p, root, queue, pastes, refs) && Resolve(p, queue[0]).Imported?
    ensures Grounded(p, root, queue[1..], pastes, refs[queue[0].name := Resolve(p, queue[0]).ref])
  {
    assert queue[0] in queue;
  }

  /** A reached use that clashes with what is recorded, or cannot be carried, makes the fence ambiguous. */
  lemma ClashIsAmbiguous(p: Package, root: Item, queue: seq<Item>, pastes: seq<Paste>, refs: map<string, TypeRef>, pasted: map<string, DeclKey>)
    requires queue != [] && Grounded(p, root, queue, pastes, refs) && PastedAs(pasted, pastes)
    requires var r, name := Resolve(p, queue[0]), queue[0].name;
      || !Carried(p, root, queue[0])
      || (name in pasted && r != Local(pasted[name]))
      || (name in refs && r != Imported(refs[name]))
    ensures !Unambiguous(p, root)
  {
    var item := queue[0];
    assert Reached(p, root, item);
    if Carried(p, root, item) {
      if item.name in pasted && Resolve(p, item) != Local(pasted[item.name]) {
        assert Paste(item.name, pasted[item.name]) in pastes;
        var i :| Reached(p, root, i) && i.name == item.name && Resolve(p, i) == Local(pasted[item.name]);
      } else {
        var i :| Reached(p, root, i) && i.name == item.name && Resolve(p, i) == Imported(refs[item.name]);
      }
    }
  }

  /** Once the queue is empty, everything reached is recorded. */
  lemma {:induction false} CoveredReaches(p: Package, root: Item, pastes: seq<Paste>, refs: map<string, TypeRef>, t: seq<Item>)
    requires Covered(p, root, [], pastes, refs) && Trail(p, root, t)
    ensures Recorded(p, pastes, refs, t[|t| - 1])
  {
    if |t| > 1 {
      var shorter := t[..|t| - 1];
      assert Trail(p, root, shorter);
      CoveredReaches(p, root, pastes, refs, shorter);
      assert Uses(p, t[|t| - 2], t[|t| - 1]);
      var key := Resolve(p, t[|t| - 2]).key;
      assert Paste(t[|t| - 2].name, key) in pastes;
    }
  }

  lemma RecordedIsUnambiguous(p: Package, root: Item, pastes: seq<Paste>, refs: map<string, TypeRef>, pasted: map<string, DeclKey>)
    requires Fence(p, root, pastes, refs, pasted) && Covered(p, root, [], pastes, refs)
    ensures Unambiguous(p, root)
    ensures forall i :: Reached(p, root, i) ==> Recorded(p, pastes, refs, i)
  {
    forall i | Reached(p, root, i) ensures Recorded(p, pastes, refs, i) && Carried(p, root, i) {
      var t :| Trail(p, root, t) && t[|t| - 1] == i;
      CoveredReaches(p, root, pastes, refs, t);
    }
  }

  lemma UsedNames(p: Package, key: DeclKey)
    requires key in p.decls
    ensures forall i :: i in UsedBy(p, key) ==> i.name in NamesIn(p)
  {
  }

  // ---------------------------------------------------------------- the account of a run

  /** A use that gives its name a meaning, if nothing before it has. */
  ghost predicate Binds(p: Package, root: Item, item: Item) {
    Resolve(p, item).Local? || (Resolve(p, item).Imported? && item.name != root.name)
  }

  /** What the first such use of a name means. */
  ghost function Meaning(p: Package, root: Item, items: seq<Item>, name: string): Resolution {
    if items == [] then Unresolved
    else
      var last := items[|items| - 1];
      var earlier := Meaning(p, root, items[..|items| - 1], name);
      if earlier == Unresolved && last.name == name && Binds(p, root, last) then Resolve(p, last) else earlier
  }

  /** What is wrong with a use of a name that already has a meaning, or none. */
  ghost function Complaint(p: Package, root: Item, item: Item, meaning: Resolution): seq<Violation> {
    match (Resolve(p, item), meaning)
    case (Unresolved, _) => [Undeclared(item)]
    case (Imported(_), Unresolved) => if item.name == root.name then [ConfigTypeImported(item.name)] else []
    case (Imported(_), Local(_)) =>
      if item.name == root.name then [ConfigTypeImported(item.name)] else [PastedThenImported(item.name)]
    case (Imported(ref), Imported(first)) => if ref == first then [] else [ImportedTwice(item.name)]
    case (Local(key), Unresolved) => if p.decls[key].documented then [] else [Undocumented(key)]
    case (Local(key), Local(first)) => if key == first then [] else [DeclaredTwice(item.name)]
    case (Local(_), Imported(_)) => [ImportedThenPasted(item.name)]
  }

  ghost function Complaints(p: Package, root: Item, items: seq<Item>): seq<Violation> {
    if items == [] then []
    else
      var before, last := items[..|items| - 1], items[|items| - 1];
      Complaints(p, root, before) + Complaint(p, root, last, Meaning(p, root, before, last.name))
  }

  /** The first uses of each name that is package-local, in order. */
  ghost function FirstLocals(p: Package, root: Item, items: seq<Item>): seq<Paste> {
    if items == [] then []
    else
      var before, last := items[..|items| - 1], items[|items| - 1];
      FirstLocals(p, root, before)
      + if Resolve(p, last).Local? && Meaning(p, root, before, last.name) == Unresolved
        then [Paste(last.name, Resolve(p, last).key)] else []
  }

  /** The config type, then the uses of each pasted declaration in turn. */
  ghost function Visited(p: Package, root: Item, pastes: seq<Paste>): seq<Item> {
    if pastes == [] then [root]
    else
      var key := pastes[|pastes| - 1].key;
      Visited(p, root, pastes[..|pastes| - 1]) + if key in p.decls then UsedBy(p, key) else []
  }

  /** Pastes, references and violations follow from the uses looked at. */
  ghost predicate Account(p: Package, root: Item, items: seq<Item>, pastes: seq<Paste>, refs: map<string, TypeRef>,
                          violations: seq<Violation>) {
    && pastes == FirstLocals(p, root, items) && violations == Complaints(p, root, items)
    && (forall name :: name in refs ==> Meaning(p, root, items, name) == Imported(refs[name]))
    && (forall name :: Meaning(p, root, items, name).Imported? ==> name in refs)
  }

  function Known(refs: map<string, TypeRef>, pasted: map<string, DeclKey>, name: string): Resolution {
    if name in pasted then Local(pasted[name]) else if name in refs then Imported(refs[name]) else Unresolved
  }

  /** The state of the loop: the uses looked at, and what they led to. */
  datatype Books = Books(items: seq<Item>, queue: seq<Item>, pastes: seq<Paste>, refs: map<string, TypeRef>,
                         pasted: map<string, DeclKey>, violations: seq<Violation>)

  ghost predicate Kept(p: Package, root: Item, b: Books) {
    && b.items + b.queue == Visited(p, root, b.pastes)
    && b.pastes == FirstLocals(p, root, b.items) && b.violations == Complaints(p, root, b.items)
    && Tables(p, root, b.items, b.refs, b.pasted)
  }

  ghost predicate Tables(p: Package, root: Item, items: seq<Item>, refs: map<string, TypeRef>, pasted: map<string, DeclKey>) {
    forall name :: Meaning(p, root, items, name) == Known(refs, pasted, name)
  }

  lemma StepBack(p: Package, root: Item, items: seq<Item>, item: Item)
    ensures var meaning := Meaning(p, root, items, item.name);
      && Complaints(p, root, items + [item]) == Complaints(p, root, items) + Complaint(p, root, item, meaning)
      && FirstLocals(p, root, items + [item]) == FirstLocals(p, root, items)
           + if Resolve(p, item).Local? && meaning == Unresolved then [Paste(item.name, Resolve(p, item).key)] else []
  {
    hide Meaning, Complaint, Resolve;
    assert (items + [item])[..|items|] == items;
  }

  lemma MeaningStep(p: Package, root: Item, items: seq<Item>, item: Item, name: string)
    ensures Meaning(p, root, items + [item], name)
      == if Meaning(p, root, items, name) == Unresolved && item.name == name && Binds(p, root, item) then Resolve(p, item)
         else Meaning(p, root, items, name)
  {
    assert (items + [item])[..|items|] == items;
  }

  lemma TablesStep(p: Package, root: Item, items: seq<Item>, item: Item, refs: map<string, TypeRef>, pasted: map<string, DeclKey>,
                   refs': map<string, TypeRef>, pasted': map<string, DeclKey>)
    requires Tables(p, root, items, refs, pasted)
    requires forall name :: name != item.name ==> Known(refs', pasted', name) == Known(refs, pasted, name)
    requires Known(refs', pasted', item.name)
      == if Known(refs, pasted, item.name) == Unresolved && Binds(p, root, item) then Resolve(p, item)
         else Known(refs, pasted, item.name)
    ensures Tables(p, root, items + [item], refs', pasted')
    ensures Meaning(p, root, items, item.name) == Known(refs, pasted, item.name)
  {
    hide Meaning, Known, Binds, Resolve;
    forall name ensures Meaning(p, root, items + [item], name) == Known(refs', pasted', name) {
      MeaningStep(p, root, items, item, name);
    }
  }

  lemma StepNoPaste(p: Package, root: Item, items: seq<Item>, item: Item)
    requires !Resolve(p, item).Local? || Meaning(p, root, items, item.name) != Unresolved
    ensures FirstLocals(p, root, items + [item]) == FirstLocals(p, root, items)
  {
    hide Meaning, Complaint, Resolve, Complaints, FirstLocals;
    StepBack(p, root, items, item);
    assert FirstLocals(p, root, items) + [] == FirstLocals(p, root, items);
  }

  lemma Shifted<T>(done: seq<T>, queue: seq<T>)
    requires queue != []
    ensures done + queue == (done + [queue[0]]) + queue[1..]
  {
  }

  /** A use that adds no paste and no meaning. */
  lemma KeepOther(p: Package, root: Item, b: Books)
    requires Kept(p, root, b) && b.queue != []
    requires Known(b.refs, b.pasted, b.queue[0].name) != Unresolved || !Binds(p, root, b.queue[0])
    ensures var item := b.queue[0];
      Kept(p, root, Books(b.items + [item], b.queue[1..], b.pastes, b.refs, b.pasted,
                          b.violations + Complaint(p, root, item, Known(b.refs, b.pasted, item.name))))
  {
    hide Meaning, Complaint, Complaints, FirstLocals, Visited, Resolve, Tables, Known;
    var item := b.queue[0];
    TablesStep(p, root, b.items, item, b.refs, b.pasted, b.refs, b.pasted);
    StepNoPaste(p, root, b.items, item);
    StepBack(p, root, b.items, item);
    Shifted(b.items, b.queue);
  }

  lemma KeepRef(p: Package, root: Item, b: Books)
    requires Kept(p, root, b) && b.queue != []
    requires var item := b.queue[0];
      Known(b.refs, b.pasted, item.name) == Unresolved && Resolve(p, item).Imported? && item.name != root.name
    ensures var item := b.queue[0];
      Kept(p, root, Books(b.items + [item], b.queue[1..], b.pastes, b.refs[item.name := Resolve(p, item).ref], b.pasted,
                          b.violations))
  {
    hide Meaning, Complaints, FirstLocals, Visited, Resolve, Tables;
    var item := b.queue[0];
    TablesStep(p, root, b.items, item, b.refs, b.pasted, b.refs[item.name := Resolve(p, item).ref], b.pasted);
    hide Known, Binds;
    StepNoPaste(p, root, b.items, item);
    StepBack(p, root, b.items, item);
    assert Complaints(p, root, b.items) + [] == Complaints(p, root, b.items);
    Shifted(b.items, b.queue);
  }

  lemma Reassociate<T>(done: seq<T>, queue: seq<T>, more: seq<T>)
    requires queue != []
    ensures done + queue + more == (done + [queue[0]]) + (queue[1..] + more)
  {
  }

  lemma KeepPaste(p: Package, root: Item, b: Books)
    requires Kept(p, root, b) && b.queue != []
    requires Known(b.refs, b.pasted, b.queue[0].name) == Unresolved && Resolve(p, b.queue[0]).Local?
    ensures var item := b.queue[0];
      var key := Resolve(p, item).key;
      Kept(p, root, Books(b.items + [item], b.queue[1..] + UsedBy(p, key), b.pastes + [Paste(item.name, key)], b.refs,
                          b.pasted[item.name := key], b.violations + Complaint(p, root, item, Unresolved)))
  {
    hide Meaning, Complaint, Complaints, FirstLocals, Visited, Resolve, Tables, UsedBy;
    var item := b.queue[0];
    var key := Resolve(p, item).key;
    TablesStep(p, root, b.items, item, b.refs, b.pasted, b.refs, b.pasted[item.name := key]);
    hide Known, Binds;
    VisitedPush(p, root, b.pastes, Paste(item.name, key));
    StepBack(p, root, b.items, item);
    Reassociate(b.items, b.queue, UsedBy(p, key));
  }

  lemma VisitedPush(p: Package, root: Item, pastes: seq<Paste>, q: Paste)
    requires q.key in p.decls
    ensures Visited(p, root, pastes + [q]) == Visited(p, root, pastes) + UsedBy(p, q.key)
  {
    assert (pastes + [q])[..|pastes|] == pastes;
  }

  lemma KeptAccounts(p: Package, root: Item, b: Books)
    requires Kept(p, root, b) && b.queue == [] && b.pasted.Keys !! b.refs.Keys
    ensures Account(p, root, Visited(p, root, b.pastes), b.pastes, b.refs, b.violations)
  {
    hide Meaning, Complaints, FirstLocals, Visited;
    assert b.items + b.queue == b.items;
    assert forall name :: name in b.refs ==> name !in b.pasted;
  }

  /**
   * The loop over `queue`. The fence never pastes a name twice and never both pastes and references
   * one; it holds only what the config type reaches. It reports no violation exactly when the
   * closure is unambiguous, and then every use in it is recorded as exactly what it resolves to.
   * The uses come up in the order of the pastes they stand in; the first that resolves decides what
   * its name means, and each use is charged with its own complaint, in that order.
   */
  method CollectClosure(p: Package, root: Item)
    returns (pastes: seq<Paste>, refs: map<string, TypeRef>, violations: seq<Violation>)
    ensures forall i, j :: 0 <= i < j < |pastes| ==> pastes[i].name != pastes[j].name
    ensures forall q :: q in pastes ==> q.name !in refs && q.key in p.decls
    ensures Grounded(p, root, [], pastes, refs)
    ensures violations == [] <==> Unambiguous(p, root)
    ensures violations == [] ==> forall i :: Reached(p, root, i) ==> Recorded(p, pastes, refs, i)
    ensures Account(p, root, Visited(p, root, pastes), pastes, refs, violations)
  {
    hide Unambiguous, Covered, Grounded, Account, Kept, Resolve, Carried, Fence, PastedAs, UsedBy;
    pastes, refs, violations := [], map[], [];
    var pasted: map<string, DeclKey> := map[];
    var queue := [root];
    ghost var items: seq<Item> := [];
    Start(p, root);
    while |queue| > 0
      invariant Fence(p, root, pastes, refs, pasted) && Grounded(p, root, queue, pastes, refs)
      invariant forall i :: i in queue ==> i.name in NamesIn(p) + {root.name}
      invariant violations == [] ==> Covered(p, root, queue, pastes, refs)
      invariant violations != [] ==> !Unambiguous(p, root)
      invariant Kept(p, root, Books(items, queue, pastes, refs, pasted, violations))
      decreases NamesIn(p) + {root.name} - pasted.Keys, |queue|
    {
      var item := queue[0];
      ghost var before := queue;
      ghost var b := Books(items, queue, pastes, refs, pasted, violations);
      assert item in queue;
      queue := queue[1..];
      items := items + [item];
      GroundDrop(p, root, before, pastes, refs);
      FenceMeans(p, root, pastes, refs, pasted);
      match Resolve(p, item)
      case Unresolved =>
        NotCarried(p, root, item);
        ClashIsAmbiguous(p, root, before, pastes, refs, pasted);
        KeepOther(p, root, b);
        violations := violations + [Undeclared(item)];
      case Imported(ref) =>
        if item.name == root.name {
          NotCarried(p, root, item);
          ClashIsAmbiguous(p, root, before, pastes, refs, pasted);
          KeepOther(p, root, b);
          violations := violations + [ConfigTypeImported(item.name)];
        } else if item.name in pasted {
          ClashIsAmbiguous(p, root, before, pastes, refs, pasted);
          KeepOther(p, root, b);
          violations := violations + [PastedThenImported(item.name)];
        } else if item.name in refs && refs[item.name] != ref {
          ClashIsAmbiguous(p, root, before, pastes, refs, pasted);
          KeepOther(p, root, b);
          violations := violations + [ImportedTwice(item.name)];
        } else {
          if violations == [] {
            AddRef(p, root, before, pastes, refs);
          }
          GroundRef(p, root, before, pastes, refs);
          if item.name in refs {
            KeepOther(p, root, b);
            assert violations + [] == violations && refs[item.name := ref] == refs;
          } else {
            KeepRef(p, root, b);
          }
          FenceRef(p, root, pastes, refs, pasted, item.name, ref);
          refs := refs[item.name := ref];
        }
      case Local(key) =>
        if item.name in pasted && pasted[item.name] == key {
          if violations == [] {
            DropRecorded(p, root, before, pastes, refs);
          }
          KeepOther(p, root, b);
          assert violations + [] == violations;
        } else if item.name in pasted {
          ClashIsAmbiguous(p, root, before, pastes, refs, pasted);
          KeepOther(p, root, b);
          violations := violations + [DeclaredTwice(item.name)];
        } else if item.name in refs {
          ClashIsAmbiguous(p, root, before, pastes, refs, pasted);
          KeepOther(p, root, b);
          violations := violations + [ImportedThenPasted(item.name)];
        } else {
          KeepPaste(p, root, b);
          if !p.decls[key].documented {
            NotCarried(p, root, item);
            ClashIsAmbiguous(p, root, before, pastes, refs, pasted);
            violations := violations + [Undocumented(key)];
          } else {
            if violations == [] {
              AddPaste(p, root, before, pastes, refs);
            }
            assert violations + [] == violations;
          }
          GroundPaste(p, root, before, pastes, refs);
          UsedNames(p, key);
          FencePaste(p, root, pastes, refs, pasted, Paste(item.name, key));
          assert item.name in NamesIn(p) + {root.name} - pasted.Keys;
          pasted := pasted[item.name := key];
          assert item.name !in NamesIn(p) + {root.name} - pasted.Keys;
          pastes := pastes + [Paste(item.name, key)];
          queue := queue + UsedBy(p, key);
        }
    }
    FenceMeans(p, root, pastes, refs, pasted);
    KeptAccounts(p, root, Books(items, queue, pastes, refs, pasted, violations));
    if violations == [] {
      RecordedIsUnambiguous(p, root, pastes, refs, pasted);
    }
  }

  lemma NotCarried(p: Package, root: Item, item: Item)
    ensures var r := Resolve(p, item);
      Carried(p, root, item) <==>
        !r.Unresolved? && (r.Imported? ==> item.name != root.name) && (r.Local? ==> p.decls[r.key].documented)
  {
  }

  lemma Start(p: Package, root: Item)
    ensures Covered(p, root, [root], [], map[]) && Grounded(p, root, [root], [], map[])
    ensures Kept(p, root, Books([], [root], [], map[], map[], [])) && Fence(p, root, [], map[], map[])
  {
    ReachRoot(p, root);
  }

  lemma GroundDrop(p: Package, root: Item, queue: seq<Item>, pastes: seq<Paste>, refs: map<string, TypeRef>)
    requires queue != [] && Grounded(p, root, queue, pastes, refs)
    ensures Grounded(p, root, queue[1..], pastes, refs)
  {
  }
}
