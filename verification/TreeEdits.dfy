/** Scalar edits by path in a parsed TOML document (`apply_document` of scripts/arena_search_parameters.py). */
module TreeEdits {
  // Where a path leads, what an edit changes, and why edits of different targets do not interfere.

  import opened Options
  import opened Permutations

  /** `Opaque` stands for the other TOML scalars: dates, times and floats that are no numbers. */
  datatype Tree =
    | Int(number: int) | Bool(truth: bool) | Text(text: string) | Float(amount: real) | Opaque(tag: nat)
    | List(items: seq<Tree>)
    | Table(entries: map<string, Tree>)

  /** A key in a path; integers in paths are never negative. */
  datatype Key = Index(index: nat) | Name(name: string)

  /** One step down a tree. */
  datatype Slot = At(position: nat) | Of(field: string)

  type Path = seq<Key>
  type Address = seq<Slot>

  datatype Edit = Edit(path: Path, value: Tree)

  // ----- Trees

  predicate Has(t: Tree, s: Slot) {
    match s
    case At(i) => t.List? && i < |t.items|
    case Of(k) => t.Table? && k in t.entries
  }

  function Sub(t: Tree, s: Slot): Tree
    requires Has(t, s)
  {
    match s
    case At(i) => t.items[i]
    case Of(k) => t.entries[k]
  }

  function With(t: Tree, s: Slot, child: Tree): Tree
    requires Has(t, s)
  {
    match s
    case At(i) => List(t.items[i := child])
    case Of(k) => Table(t.entries[k := child])
  }

  function Get(t: Tree, a: Address): Option<Tree> {
    if a == [] then Some(t)
    else if Has(t, a[0]) then Get(Sub(t, a[0]), a[1..])
    else None
  }

  function Put(t: Tree, a: Address, leaf: Tree): Tree
    requires Get(t, a).Some?
  {
    if a == [] then leaf else With(t, a[0], Put(Sub(t, a[0]), a[1..], leaf))
  }

  /** The scalars that parameters may replace, by one of the same type. */
  predicate Replaces(was: Tree, now: Tree) {
    (was.Int? && now.Int?) || (was.Bool? && now.Bool?) || (was.Text? && now.Text?)
  }

  // ----- Where a path leads

  /** Equality of a document value with a key: a boolean or a float may equal an integer. */
  predicate Equals(t: Tree, key: Key) {
    match key
    case Name(s) => t == Text(s)
    case Index(i) => t == Int(i) || (t.Bool? && i == (if t.truth then 1 else 0)) || (t.Float? && t.amount == i as real)
  }

  /** The lists of point grants. */
  predicate IsGrant(path: Path, depth: nat) {
    || (depth == 2 && |path| >= 2 && path[0] == Name("constants") && path[1] == Name("racial_point_grants"))
    || (depth == 3 && |path| >= 3 && path[0] == Name("classes") && path[2] == Name("point_grants"))
  }

  /** Elements of these lists are found by an identity field; a final key never is. */
  predicate ByIdentity(path: Path, depth: nat) {
    depth + 1 < |path| && (depth == 1 || IsGrant(path, depth))
  }

  function IdentityField(path: Path, depth: nat): string
    requires path != []
  {
    if IsGrant(path, depth) then "pool" else if path[0] == Name("resources") then "resource" else "id"
  }

  predicate Matches(t: Tree, field: string, key: Key) {
    t.Table? && field in t.entries && Equals(t.entries[field], key)
  }

  /** The positions of the elements that a key names. */
  function Found(items: seq<Tree>, field: string, key: Key): (found: seq<nat>)
    ensures forall i {:trigger i in found} :: i in found <==> 0 <= i < |items| && Matches(items[i], field, key)
  {
    if items == [] then []
    else Found(items[..|items| - 1], field, key) + if Matches(items[|items| - 1], field, key) then [|items| - 1] else []
  }

  /** Where one step of a path leads, if anywhere. */
  function Child(path: Path, depth: nat, t: Tree): (s: Option<Slot>)
    requires depth < |path|
    ensures s.Some? ==> Has(t, s.value)
  {
    var key := path[depth];
    if t.List? && ByIdentity(path, depth) then
      var found := Found(t.items, IdentityField(path, depth), key);
      if |found| == 1 then assert found[0] in found; Some(At(found[0])) else None
    else if t.List? && key.Index? && key.index < |t.items| then Some(At(key.index))
    else if t.Table? && key.Name? && key.name in t.entries then Some(Of(key.name))
    else None
  }

  /** The address that the rest of a path has in the subtree `t`. */
  function Locate(path: Path, depth: nat, t: Tree): (a: Option<Address>)
    requires depth <= |path|
    ensures a.Some? ==> |a.value| == |path| - depth && Get(t, a.value).Some?
    decreases |path| - depth
  {
    if depth == |path| then Some([])
    else
      match Child(path, depth, t)
      case None => None
      case Some(s) =>
        match Locate(path, depth + 1, Sub(t, s))
        case None => None
        case Some(rest) => Some([s] + rest)
  }

  /** One target of `apply_document`; `None` is its error. */
  function Apply(t: Tree, e: Edit): Option<Tree> {
    match Locate(e.path, 0, t)
    case None => None
    case Some(a) => if Replaces(Get(t, a).value, e.value) then Some(Put(t, a, e.value)) else None
  }

  function ApplyAll(t: Tree, edits: seq<Edit>): Option<Tree>
    decreases |edits|
  {
    if edits == [] then Some(t)
    else
      match Apply(t, edits[0])
      case None => None
      case Some(next) => ApplyAll(next, edits[1..])
  }

  // ----- What a path means

  /** The field by which the elements of a list are searched at this depth of a path, if they are. The last key of a path
      is never searched for. */
  function SearchedBy(path: Path, depth: nat): Option<string> {
    if depth + 1 >= |path| then None
    else if depth == 2 && path[..2] == [Name("constants"), Name("racial_point_grants")] then Some("pool")
    else if depth == 3 && path[0] == Name("classes") && path[2] == Name("point_grants") then Some("pool")
    else if depth == 1 then Some(if path[0] == Name("resources") then "resource" else "id")
    else None
  }

  /** The element is a table whose field holds the text of the key, or its number, also as a float or as a truth value. */
  predicate IsCalled(element: Tree, field: string, key: Key) {
    && element.Table? && field in element.entries
    && var id := element.entries[field];
       match key
       case Name(s) => id.Text? && id.text == s
       case Index(i) => id == Int(i) || id == Float(i as real) || (i == 0 && id == Bool(false)) || (i == 1 && id == Bool(true))
  }

  /** The element at this position, and no other, has the name. */
  ghost predicate IsOnly(items: seq<Tree>, field: string, key: Key, position: nat) {
    && position < |items| && IsCalled(items[position], field, key)
    && forall j :: 0 <= j < |items| && IsCalled(items[j], field, key) ==> j == position
  }

  /** From `depth` on, the path leads through the subtree `t` to the address `a`: by the position or the only element of
      that name in a list, and by the entry in a table. */
  ghost predicate LeadsTo(path: Path, depth: nat, t: Tree, a: Address)
    requires depth <= |path|
    decreases |path| - depth
  {
    if depth == |path| then a == []
    else
      && a != []
      && match t
         case List(items) =>
           && a[0].At? && a[0].position < |items|
           && (if SearchedBy(path, depth).Some? then IsOnly(items, SearchedBy(path, depth).value, path[depth], a[0].position)
               else path[depth] == Index(a[0].position))
           && LeadsTo(path, depth + 1, items[a[0].position], a[1..])
         case Table(entries) =>
           && a[0].Of? && a[0].field in entries && path[depth] == Name(a[0].field)
           && LeadsTo(path, depth + 1, entries[a[0].field], a[1..])
         case _ => false
  }

  lemma SearchedIs(path: Path, depth: nat)
    requires depth < |path|
    ensures SearchedBy(path, depth) == if ByIdentity(path, depth) then Some(IdentityField(path, depth)) else None
  {
    if depth == 2 {
      assert path[..2] == [path[0], path[1]];
    }
  }

  lemma CalledIs(element: Tree, field: string, key: Key)
    ensures IsCalled(element, field, key) <==> Matches(element, field, key)
  {
  }

  lemma {:induction false} FoundOrdered(items: seq<Tree>, field: string, key: Key)
    ensures forall i, j :: 0 <= i < j < |Found(items, field, key)| ==> Found(items, field, key)[i] < Found(items, field, key)[j]
    decreases |items|
  {
    if items != [] {
      var front := Found(items[..|items| - 1], field, key);
      FoundOrdered(items[..|items| - 1], field, key);
      assert forall i :: 0 <= i < |front| ==> front[i] in front;
    }
  }

  /** One position is found exactly when one element only has the name. */
  lemma FoundOnly(items: seq<Tree>, field: string, key: Key, position: nat)
    ensures Found(items, field, key) == [position] <==> IsOnly(items, field, key, position)
  {
    var found := Found(items, field, key);
    FoundOrdered(items, field, key);
    forall j | 0 <= j < |items|
      ensures IsCalled(items[j], field, key) <==> j in found
    {
      CalledIs(items[j], field, key);
    }
    assert |found| > 1 ==> found[0] < found[1];
    if found == [position] {
      assert position in found;
    }
    if IsOnly(items, field, key, position) {
      assert position in found;
      forall i | 0 <= i < |found|
        ensures found[i] == position
      {
        assert found[i] in found;
      }
    }
  }

  /** One step of a path. */
  ghost predicate StepsTo(path: Path, depth: nat, t: Tree, s: Slot)
    requires depth < |path|
  {
    match t
    case List(items) =>
      && s.At? && s.position < |items|
      && (if SearchedBy(path, depth).Some? then IsOnly(items, SearchedBy(path, depth).value, path[depth], s.position)
          else path[depth] == Index(s.position))
    case Table(entries) => s.Of? && s.field in entries && path[depth] == Name(s.field)
    case _ => false
  }

  lemma ChildExactly(path: Path, depth: nat, t: Tree, s: Slot)
    requires depth < |path|
    ensures Child(path, depth, t) == Some(s) <==> StepsTo(path, depth, t, s)
  {
    SearchedIs(path, depth);
    if t.List? && ByIdentity(path, depth) {
      var field, key := IdentityField(path, depth), path[depth];
      var found := Found(t.items, field, key);
      if s.At? {
        FoundOnly(t.items, field, key, s.position);
      }
      assert |found| == 1 ==> found == [found[0]];
    }
  }

  /** Locating a path finds the address that it leads to, and fails exactly when it leads nowhere. */
  lemma {:induction false} LocateExactly(path: Path, depth: nat, t: Tree, a: Address)
    requires depth <= |path|
    ensures Locate(path, depth, t) == Some(a) <==> LeadsTo(path, depth, t, a)
    decreases |path| - depth
  {
    if depth < |path| {
      if a != [] {
        ChildExactly(path, depth, t, a[0]);
        if StepsTo(path, depth, t, a[0]) {
          LocateExactly(path, depth + 1, Sub(t, a[0]), a[1..]);
          assert a == [a[0]] + a[1..];
        }
      }
    }
  }

  // ----- Conditions on targets

  /** A path that does not end in the field that its own lists are searched by. */
  predicate SparesIdentity(path: Path) {
    |path| >= 2 && (|path| == 3 || IsGrant(path, |path| - 2) ==> path[|path| - 1] != Name(IdentityField(path, |path| - 2)))
  }

  predicate Prefix(p: Path, q: Path) {
    |p| <= |q| && q[..|p|] == p
  }

  /** Neither path leads through or to the other's target. */
  predicate Apart(p: Path, q: Path) {
    !Prefix(p, q) && !Prefix(q, p)
  }

  /** No two targets interfere; this does not depend on the order of the edits. */
  ghost predicate AllApart(edits: seq<Edit>) {
    && (forall e, f :: e in edits && f in edits && e != f ==> Apart(e.path, f.path))
    && (forall e :: e in edits ==> multiset(edits)[e] == 1)
  }

  predicate AllSpare(edits: seq<Edit>) {
    forall e :: e in edits ==> SparesIdentity(e.path)
  }

  // ----- Paths with a common start

  lemma SameMode(p: Path, q: Path, d: nat)
    requires d < |p| && d < |q| && p[..d] == q[..d]
    ensures IsGrant(p, d) == IsGrant(q, d)
    ensures d > 0 ==> IdentityField(p, d) == IdentityField(q, d)
  {
    if d > 0 {
      assert p[0] == p[..d][0] == q[..d][0] == q[0];
    }
    if d > 1 {
      assert p[1] == p[..d][1] == q[..d][1] == q[1];
    }
    if d > 2 {
      assert p[2] == p[..d][2] == q[..d][2] == q[2];
    }
  }

  lemma SameStart(p: Path, q: Path, d: nat)
    requires d < |p| && d < |q| && p[..d] == q[..d] && p[d] == q[d]
    ensures p[..d + 1] == q[..d + 1]
  {
    assert p[..d + 1] == p[..d] + [p[d]] && q[..d + 1] == q[..d] + [q[d]];
  }

  /** Different keys lead to different children. */
  lemma SlotKey(p: Path, q: Path, d: nat, t: Tree)
    requires d < |p| && d < |q| && p[..d] == q[..d] && (d + 1 == |p| <==> d + 1 == |q|)
    requires Child(p, d, t).Some? && Child(p, d, t) == Child(q, d, t)
    ensures p[d] == q[d]
  {
    SameMode(p, q, d);
    if t.List? && ByIdentity(p, d) {
      var i := Child(p, d, t).value.position;
      assert i in Found(t.items, IdentityField(p, d), p[d]);
      assert i in Found(t.items, IdentityField(q, d), q[d]);
      SameKey(t.items[i].entries[IdentityField(p, d)], p[d], q[d]);
    }
  }

  lemma SameKey(t: Tree, k: Key, l: Key)
    requires Equals(t, k) && Equals(t, l)
    ensures k == l
  {
  }

  // ----- Leaves

  predicate Leaf(t: Tree) {
    !t.List? && !t.Table?
  }

  /** Containers with the same positions or keys. */
  predicate SameForm(t: Tree, u: Tree) {
    (t.List? && u.List? && |t.items| == |u.items|) || (t.Table? && u.Table? && t.entries.Keys == u.entries.Keys)
  }

  lemma {:induction false} PutGet(t: Tree, a: Address, leaf: Tree)
    requires Get(t, a).Some?
    ensures Get(Put(t, a, leaf), a) == Some(leaf)
    decreases |a|
  {
    if a != [] {
      PutGet(Sub(t, a[0]), a[1..], leaf);
    }
  }

  /** Replacing one leaf leaves everything else as it was. */
  lemma {:induction false} PutFrame(t: Tree, b: Address, leaf: Tree, a: Address)
    requires Get(t, b).Some? && Leaf(Get(t, b).value) && Leaf(leaf) && a != b
    ensures Get(Put(t, b, leaf), a).Some? <==> Get(t, a).Some?
    ensures Get(t, a).Some? ==> Get(Put(t, b, leaf), a) == Get(t, a) || SameForm(Get(Put(t, b, leaf), a).value, Get(t, a).value)
    decreases |b|
  {
    if b != [] && a != [] {
      var u := Put(t, b, leaf);
      assert Has(u, a[0]) <==> Has(t, a[0]);
      if a[0] == b[0] {
        assert a[1..] != b[1..] by {
          assert a == [a[0]] + a[1..] && b == [b[0]] + b[1..];
        }
        PutFrame(Sub(t, b[0]), b[1..], leaf, a[1..]);
      } else if Has(t, a[0]) {
        assert Sub(u, a[0]) == Sub(t, a[0]);
      }
    }
  }

  lemma {:induction false} PutPut(t: Tree, a: Address, x: Tree, b: Address, y: Tree)
    requires Get(t, a).Some? && Leaf(Get(t, a).value) && Leaf(x)
    requires Get(t, b).Some? && Leaf(Get(t, b).value) && Leaf(y) && a != b
    ensures Get(Put(t, a, x), b).Some? && Get(Put(t, b, y), a).Some?
    ensures Put(Put(t, a, x), b, y) == Put(Put(t, b, y), a, x)
    decreases |a|
  {
    PutFrame(t, a, x, b);
    PutFrame(t, b, y, a);
    assert a != [] && b != [];
    if a[0] == b[0] {
      assert a[1..] != b[1..] by {
        assert a == [a[0]] + a[1..] && b == [b[0]] + b[1..];
      }
      PutPut(Sub(t, a[0]), a[1..], x, b[1..], y);
      WithWith(t, a[0], Put(Sub(t, a[0]), a[1..], x), Put(Sub(t, a[0]), b[1..], y));
    } else {
      WithOther(t, a[0], Put(Sub(t, a[0]), a[1..], x), b[0], Put(Sub(t, b[0]), b[1..], y));
    }
  }

  lemma WithWith(t: Tree, s: Slot, x: Tree, y: Tree)
    requires Has(t, s)
    ensures Has(With(t, s, x), s) && Sub(With(t, s, x), s) == x
    ensures forall z :: With(With(t, s, x), s, z) == With(With(t, s, y), s, z)
  {
    forall z
      ensures With(With(t, s, x), s, z) == With(t, s, z)
      ensures With(With(t, s, y), s, z) == With(t, s, z)
    {
      match s
      case At(i) => assert t.items[i := x][i := z] == t.items[i := z] == t.items[i := y][i := z];
      case Of(k) => assert t.entries[k := x][k := z] == t.entries[k := z] == t.entries[k := y][k := z];
    }
  }

  lemma WithOther(t: Tree, s: Slot, x: Tree, r: Slot, y: Tree)
    requires Has(t, s) && Has(t, r) && r != s
    ensures Has(With(t, s, x), r) && Sub(With(t, s, x), r) == Sub(t, r)
    ensures Has(With(t, r, y), s) && Sub(With(t, r, y), s) == Sub(t, s)
    ensures With(With(t, s, x), r, y) == With(With(t, r, y), s, x)
  {
    match s
    case At(i) => assert t.items[i := x][r.position := y] == t.items[r.position := y][i := x];
    case Of(k) => assert t.entries[k := x][r.field := y] == t.entries[r.field := y][k := x];
  }

  // ----- Edits do not move targets

  lemma {:induction false} FoundSame(items: seq<Tree>, others: seq<Tree>, field: string, key: Key)
    requires |items| == |others|
    requires forall j {:trigger items[j]} :: 0 <= j < |items| ==> Matches(items[j], field, key) == Matches(others[j], field, key)
    ensures Found(items, field, key) == Found(others, field, key)
    decreases |items|
  {
    if items != [] {
      var n := |items| - 1;
      assert Matches(items[n], field, key) == Matches(others[n], field, key);
      FoundSame(items[..n], others[..n], field, key);
    }
  }

  /** An edit below a list element does not change its identity field. */
  lemma IdentityKept(q: Path, d: nat, child: Tree, a: Address, v: Tree, field: string, key: Key)
    requires d + 1 <= |q| && Locate(q, d + 1, child) == Some(a) && Leaf(Get(child, a).value) && Leaf(v)
    requires d + 2 == |q| ==> q[d + 1] != Name(field)
    ensures Matches(Put(child, a, v), field, key) == Matches(child, field, key)
  {
    if a != [] && child.Table? && a[0] == Of(field) {
      assert Child(q, d + 1, child) == Some(a[0]);
      assert a[1..] != [];
      assert Has(child.entries[field], a[1]);
    }
  }

  lemma ChildAfter(p: Path, q: Path, d: nat, t: Tree, v: Tree)
    requires d < |p| && d < |q| && p[..d] == q[..d] && SparesIdentity(q)
    requires Locate(q, d, t).Some? && Leaf(Get(t, Locate(q, d, t).value).value) && Leaf(v)
    ensures Child(p, d, Put(t, Locate(q, d, t).value, v)) == Child(p, d, t)
  {
    var a := Locate(q, d, t).value;
    var u := Put(t, a, v);
    if t.List? && ByIdentity(p, d) {
      var field := IdentityField(p, d);
      SameMode(p, q, d);
      forall j {:trigger t.items[j]} | 0 <= j < |t.items|
        ensures Matches(t.items[j], field, p[d]) == Matches(u.items[j], field, p[d])
      {
        if j == a[0].position {
          IdentityKept(q, d, t.items[j], a[1..], v, field, p[d]);
        }
      }
      FoundSame(t.items, u.items, field, p[d]);
    }
  }

  /** Replacing a target leaves every path leading where it led. */
  lemma {:induction false} LocateAfter(p: Path, q: Path, d: nat, t: Tree, v: Tree)
    requires d <= |p| && d < |q| && p[..d] == q[..d] && SparesIdentity(q)
    requires Locate(q, d, t).Some? && Leaf(Get(t, Locate(q, d, t).value).value) && Leaf(v)
    ensures Locate(p, d, Put(t, Locate(q, d, t).value, v)) == Locate(p, d, t)
    decreases |p| - d
  {
    if d < |p| {
      var a := Locate(q, d, t).value;
      var u := Put(t, a, v);
      ChildAfter(p, q, d, t, v);
      if Child(p, d, t).Some? {
        var s := Child(p, d, t).value;
        if s != a[0] {
          assert Sub(u, s) == Sub(t, s);
        } else if d + 1 < |p| && d + 1 < |q| {
          SlotKey(p, q, d, t);
          SameStart(p, q, d);
          LocateAfter(p, q, d + 1, Sub(t, s), v);
        }
      }
    }
  }

  /** Targets that do not interfere are at different addresses. */
  lemma {:induction false} AddressesDiffer(p: Path, q: Path, d: nat, t: Tree)
    requires d <= |p| && d <= |q| && p[..d] == q[..d] && Apart(p, q)
    requires Locate(p, d, t).Some? && Locate(q, d, t).Some?
    ensures Locate(p, d, t) != Locate(q, d, t)
    decreases |p| - d
  {
    NotPrefixes(p, q, d);
    LocateHead(p, d, t);
    LocateHead(q, d, t);
    if |p| == |q| && Child(p, d, t) == Child(q, d, t) {
      SlotKey(p, q, d, t);
      SameStart(p, q, d);
      AddressesDiffer(p, q, d + 1, Sub(t, Child(p, d, t).value));
    }
  }

  lemma LocateHead(p: Path, d: nat, t: Tree)
    requires d < |p| && Locate(p, d, t).Some?
    ensures Child(p, d, t) == Some(Locate(p, d, t).value[0])
    ensures Locate(p, d + 1, Sub(t, Child(p, d, t).value)) == Some(Locate(p, d, t).value[1..])
  {
  }

  lemma NotPrefixes(p: Path, q: Path, d: nat)
    requires d <= |p| && d <= |q| && p[..d] == q[..d] && Apart(p, q)
    ensures d < |p| && d < |q|
  {
    assert p[..|p|] == p && q[..|q|] == q;
  }

  // ----- Edits commute

  function Then(t: Option<Tree>, e: Edit): Option<Tree> {
    match t
    case None => None
    case Some(next) => Apply(next, e)
  }

  /** After one edit, another target is where it was, and can be replaced if and only if it could before. */
  lemma TargetAfter(t: Tree, e: Edit, f: Edit)
    requires SparesIdentity(e.path) && Apart(e.path, f.path) && Apply(t, e).Some?
    ensures Locate(f.path, 0, Apply(t, e).value) == Locate(f.path, 0, t)
    ensures Apply(Apply(t, e).value, f).Some? <==> Apply(t, f).Some?
  {
    var a := Locate(e.path, 0, t).value;
    LocateAfter(f.path, e.path, 0, t, e.value);
    if Locate(f.path, 0, t).Some? {
      AddressesDiffer(e.path, f.path, 0, t);
      PutFrame(t, a, e.value, Locate(f.path, 0, t).value);
    }
  }

  /** Two edits in either order have the same outcome, whether they succeed or fail. */
  lemma EditsCommute(t: Tree, e: Edit, f: Edit)
    requires SparesIdentity(e.path) && SparesIdentity(f.path) && Apart(e.path, f.path)
    ensures Then(Apply(t, e), f) == Then(Apply(t, f), e)
  {
    if Apply(t, e).Some? {
      TargetAfter(t, e, f);
    }
    if Apply(t, f).Some? {
      TargetAfter(t, f, e);
    }
    if Apply(t, e).Some? && Apply(t, f).Some? {
      AddressesDiffer(e.path, f.path, 0, t);
      PutPut(t, Locate(e.path, 0, t).value, e.value, Locate(f.path, 0, t).value, f.value);
    }
  }

  function ThenAll(t: Option<Tree>, edits: seq<Edit>): Option<Tree> {
    match t
    case None => None
    case Some(next) => ApplyAll(next, edits)
  }

  lemma ApartTail(edits: seq<Edit>)
    requires AllApart(edits) && AllSpare(edits) && edits != []
    ensures AllApart(edits[1..]) && AllSpare(edits[1..])
    ensures forall e :: e in edits[1..] ==> Apart(edits[0].path, e.path)
  {
    assert edits == [edits[0]] + edits[1..];
    forall e | e in edits[1..]
      ensures multiset(edits[1..])[e] == 1 && e != edits[0]
    {
      assert multiset(edits)[e] == 1;
    }
  }

  function Without(edits: seq<Edit>, i: nat): seq<Edit>
    requires i < |edits|
  {
    edits[..i] + edits[i + 1..]
  }

  lemma WithoutTail(edits: seq<Edit>, i: nat)
    requires 0 < i < |edits|
    ensures Without(edits, i) == [edits[0]] + Without(edits[1..], i - 1) && edits[1..][i - 1] == edits[i]
    ensures Without(edits, i)[1..] == Without(edits[1..], i - 1)
  {
  }

  lemma WithoutCounts(edits: seq<Edit>, i: nat)
    requires i < |edits|
    ensures multiset(edits) == multiset([edits[i]] + Without(edits, i))
    ensures multiset(Without(edits, i)) == multiset(edits) - multiset{edits[i]}
  {
    assert edits == edits[..i] + [edits[i]] + edits[i + 1..];
  }

  lemma FirstThenAll(t: Option<Tree>, edits: seq<Edit>)
    requires edits != []
    ensures ThenAll(t, edits) == ThenAll(Then(t, edits[0]), edits[1..])
  {
  }

  /** Any edit may go first. */
  lemma {:induction false} MoveToFront(t: Tree, edits: seq<Edit>, i: nat)
    requires i < |edits| && AllApart(edits) && AllSpare(edits)
    ensures ApplyAll(t, edits) == ThenAll(Apply(t, edits[i]), Without(edits, i))
    decreases i
  {
    if i == 0 {
      assert Without(edits, 0) == edits[1..];
    } else {
      WithoutTail(edits, i);
      ApartTail(edits);
      MoveTail(t, edits, i);
      EditsCommute(t, edits[0], edits[i]);
      FirstThenAll(Apply(t, edits[i]), Without(edits, i));
    }
  }

  lemma {:induction false} MoveTail(t: Tree, edits: seq<Edit>, i: nat)
    requires 0 < i < |edits| && AllApart(edits[1..]) && AllSpare(edits[1..])
    ensures ApplyAll(t, edits) == ThenAll(Then(Apply(t, edits[0]), edits[i]), Without(edits[1..], i - 1))
    decreases i, 0
  {
    WithoutTail(edits, i);
    if Apply(t, edits[0]).Some? {
      MoveToFront(Apply(t, edits[0]).value, edits[1..], i - 1);
    }
  }

  /** The outcome of a set of edits does not depend on their order. */
  lemma {:induction false} OrderIrrelevant(t: Tree, edits: seq<Edit>, others: seq<Edit>)
    requires AllApart(edits) && AllSpare(edits) && multiset(edits) == multiset(others)
    ensures ApplyAll(t, edits) == ApplyAll(t, others)
    decreases |edits|
  {
    SameLength(edits, others);
    if edits != [] {
      var i := WithoutFirst(edits, others);
      PermutedApart(edits, others);
      MoveToFront(t, others, i);
      ApartTail(edits);
      if Apply(t, edits[0]).Some? {
        OrderIrrelevant(Apply(t, edits[0]).value, edits[1..], Without(others, i));
      }
    }
  }

  lemma PermutedApart(edits: seq<Edit>, others: seq<Edit>)
    requires AllApart(edits) && AllSpare(edits) && multiset(edits) == multiset(others)
    ensures AllApart(others) && AllSpare(others)
  {
    assert forall e :: e in others <==> e in multiset(others);
    assert forall e :: e in edits <==> e in multiset(edits);
  }

  // ----- What all edits together achieve

  /** All edits succeed exactly when each would succeed alone, on the original document. */
  lemma {:induction false} AllSucceed(t: Tree, edits: seq<Edit>)
    requires AllApart(edits) && AllSpare(edits)
    ensures ApplyAll(t, edits).Some? <==> forall e :: e in edits ==> Apply(t, e).Some?
    decreases |edits|
  {
    if edits != [] {
      ApartTail(edits);
      assert edits == [edits[0]] + edits[1..];
      if Apply(t, edits[0]).Some? {
        AllSucceed(Apply(t, edits[0]).value, edits[1..]);
        SameSuccess(t, edits[0], edits[1..]);
      }
    }
  }

  lemma SameSuccess(t: Tree, e: Edit, rest: seq<Edit>)
    requires SparesIdentity(e.path) && Apply(t, e).Some? && forall f :: f in rest ==> Apart(e.path, f.path)
    ensures forall f :: f in rest ==> (Apply(Apply(t, e).value, f).Some? <==> Apply(t, f).Some?)
  {
    forall f | f in rest
      ensures Apply(Apply(t, e).value, f).Some? <==> Apply(t, f).Some?
    {
      TargetAfter(t, e, f);
    }
  }

  /** No path leads elsewhere after the edits. */
  lemma {:induction false} PathsKept(t: Tree, edits: seq<Edit>, p: Path)
    requires AllApart(edits) && AllSpare(edits) && ApplyAll(t, edits).Some?
    ensures Locate(p, 0, ApplyAll(t, edits).value) == Locate(p, 0, t)
    decreases |edits|
  {
    if edits != [] {
      ApartTail(edits);
      LocateAfter(p, edits[0].path, 0, t, edits[0].value);
      PathsKept(Apply(t, edits[0]).value, edits[1..], p);
    }
  }

  /** What is not a target keeps its value, if a leaf, and its positions or keys, if a container. */
  lemma {:induction false} RestKept(t: Tree, edits: seq<Edit>, a: Address)
    requires AllApart(edits) && AllSpare(edits) && ApplyAll(t, edits).Some?
    requires forall e :: e in edits ==> Locate(e.path, 0, t) != Some(a)
    ensures var r := ApplyAll(t, edits).value;
      && (Get(r, a).Some? <==> Get(t, a).Some?)
      && (Get(t, a).Some? ==> Get(r, a) == Get(t, a) || SameForm(Get(r, a).value, Get(t, a).value))
    decreases |edits|
  {
    if edits != [] {
      var next := Apply(t, edits[0]).value;
      ApartTail(edits);
      PutFrame(t, Locate(edits[0].path, 0, t).value, edits[0].value, a);
      forall e | e in edits[1..]
        ensures Locate(e.path, 0, next) == Locate(e.path, 0, t)
      {
        TargetAfter(t, edits[0], e);
      }
      RestKept(next, edits[1..], a);
    }
  }

  /** Every target holds its value. */
  lemma TargetsHold(t: Tree, edits: seq<Edit>, e: Edit)
    requires AllApart(edits) && AllSpare(edits) && ApplyAll(t, edits).Some? && e in edits
    ensures Locate(e.path, 0, t).Some? && Get(ApplyAll(t, edits).value, Locate(e.path, 0, t).value) == Some(e.value)
  {
    var i :| 0 <= i < |edits| && edits[i] == e;
    MoveToFront(t, edits, i);
    WithoutCounts(edits, i);
    PermutedApart(edits, [e] + Without(edits, i));
    AllSucceed(t, edits);
    FirstHolds(t, e, Without(edits, i));
  }

  lemma FirstHolds(t: Tree, e: Edit, rest: seq<Edit>)
    requires AllApart([e] + rest) && AllSpare([e] + rest) && Apply(t, e).Some? && ApplyAll(Apply(t, e).value, rest).Some?
    ensures Get(ApplyAll(Apply(t, e).value, rest).value, Locate(e.path, 0, t).value) == Some(e.value)
  {
    var next, a := Apply(t, e).value, Locate(e.path, 0, t).value;
    PutGet(t, a, e.value);
    ApartTail([e] + rest);
    assert ([e] + rest)[1..] == rest;
    forall f | f in rest
      ensures Locate(f.path, 0, next) != Some(a)
    {
      TargetAfter(t, e, f);
      if Locate(f.path, 0, t).Some? {
        AddressesDiffer(e.path, f.path, 0, t);
      }
    }
    RestKept(next, rest, a);
  }
}
