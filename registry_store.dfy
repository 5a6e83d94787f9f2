/** The hierarchical key/value store behind the add-in catalogue: the part of
    the Windows registry the catalogue code touches, abstracted as a map from
    (hive, key path) to the key's named values and its ordered sub-key list.

    Key and value names are compared exactly (the real registry ignores case),
    and a hive either accepts every write or refuses every write. */
module Store {
  import opened Wrappers
  import opened Strings

  datatype Hive = CurrentUser | ClassesRoot

  /** The value kinds the catalogue writes or may find: REG_SZ, REG_DWORD, REG_BINARY. */
  datatype RegValue = Sz(text: string) | DWord(number: int) | Binary(bytes: seq<bv8>)

  /** A key's position: its hive and the names of the keys on the way down. */
  datatype Loc = Loc(hive: Hive, path: seq<string>)

  /** The store: each existing key with its sub-key names in creation order,
      and each named value of a key. */
  datatype Reg = Reg(keys: map<Loc, seq<string>>, values: map<(Loc, string), RegValue>)

  /** What a store operation can raise:
      `Denied` stands for the `SecurityException` of a refused write,
      `HiveSubtree` for the `ArgumentException` of deleting a hive,
      `HasSubKeys` for the `InvalidOperationException` of a non-recursive
      delete of a key that still has children. */
  datatype StoreError = Denied | HiveSubtree | HasSubKeys

  function ErrorMessage(e: StoreError): string {
    match e
    case Denied => "Requested registry access is not allowed."
    case HiveSubtree => "Cannot delete a registry hive's subtree."
    case HasSubKeys => "Registry key has subkeys and recursive removes are not supported by this method."
  }

  // ----- key names and paths -----

  /** A name a single key can carry: non-empty and without a backslash. */
  predicate Segment(s: string) { s != "" && '\\' !in s }

  predicate CleanPath(p: seq<string>) {
    forall i :: 0 <= i < |p| ==> Segment(p[i])
  }

  function NonEmpty(parts: seq<string>): (r: seq<string>)
    ensures forall i :: 0 <= i < |r| ==> r[i] != "" && r[i] in parts
    decreases |parts|
  {
    if parts == [] then []
    else (if parts[0] == "" then [] else [parts[0]]) + NonEmpty(parts[1..])
  }

  lemma {:induction false} NonEmptyAppend(a: seq<string>, b: seq<string>)
    ensures NonEmpty(a + b) == NonEmpty(a) + NonEmpty(b)
    decreases |a|
  {
    if a == [] {
      assert a + b == b;
    } else {
      assert (a + b)[0] == a[0];
      assert (a + b)[1..] == a[1..] + b;
      NonEmptyAppend(a[1..], b);
    }
  }

  /** The key path a sub-key name denotes: the backslash-separated pieces, with
      the empty pieces of doubled, leading or trailing backslashes dropped. */
  function PathOf(name: string): (p: seq<string>)
    ensures CleanPath(p)
  {
    NonEmpty(Split(name, '\\'))
  }

  /** A name built as `a\b` denotes the path of `a` followed by the path of `b`. */
  lemma PathOfJoin(a: string, b: string)
    ensures PathOf(a + "\\" + b) == PathOf(a) + PathOf(b)
  {
    assert a + "\\" + b == a + ['\\'] + b;
    SplitAppend(a, b, '\\');
    NonEmptyAppend(Split(a, '\\'), Split(b, '\\'));
  }

  lemma PathOfSegment(s: string)
    requires Segment(s)
    ensures PathOf(s) == [s]
  {
    SplitNoSep(s, '\\');
    assert NonEmpty([s]) == [s] + NonEmpty([]);
  }

  /** Segments joined with backslashes denote exactly those segments. */
  lemma {:induction false} PathOfJoinPath(segs: seq<string>)
    requires segs != [] && CleanPath(segs)
    ensures PathOf(Join(segs, "\\")) == segs
    decreases |segs|
  {
    if |segs| == 1 {
      PathOfSegment(segs[0]);
    } else {
      PathOfJoinPath(segs[1..]);
      PathOfJoin(segs[0], Join(segs[1..], "\\"));
      PathOfSegment(segs[0]);
    }
  }

  function Root(h: Hive): Loc { Loc(h, []) }

  /** The key a base key's `OpenSubKey(name)` or `CreateSubKey(name)` reaches. */
  function At(h: Hive, name: string): Loc { Loc(h, PathOf(name)) }

  /** The key a key's own `OpenSubKey(name)` reaches. */
  function Rel(l: Loc, name: string): Loc { Loc(l.hive, l.path + PathOf(name)) }

  function Child(l: Loc, n: string): Loc { Loc(l.hive, l.path + [n]) }

  function Parent(l: Loc): Loc
    requires l.path != []
  {
    Loc(l.hive, l.path[..|l.path| - 1])
  }

  function Last(l: Loc): string
    requires l.path != []
  {
    l.path[|l.path| - 1]
  }

  /** `l` is `top` or lies in the tree below it. */
  predicate Under(l: Loc, top: Loc) {
    l.hive == top.hive && top.path <= l.path
  }

  lemma ParentChild(l: Loc)
    requires l.path != []
    ensures Child(Parent(l), Last(l)) == l
  {
    assert l.path[..|l.path| - 1] + [Last(l)] == l.path;
  }

  /** `GetValue(n)` on the key at `l`: absent when the key or the value is. */
  function Value(r: Reg, l: Loc, n: string): Option<RegValue> {
    if l in r.keys && (l, n) in r.values then Some(r.values[(l, n)]) else None
  }

  // ----- sub-key lists -----

  function AppendNew(ks: seq<string>, n: string): (r: seq<string>)
    ensures ks <= r && n in r
    ensures forall x :: x in r ==> x in ks || x == n
  {
    if n in ks then ks else ks + [n]
  }

  function Remove(ks: seq<string>, n: string): (r: seq<string>)
    ensures forall x :: x in r <==> x in ks && x != n
    ensures n !in ks ==> r == ks
    decreases |ks|
  {
    if ks == [] then []
    else
      var rest := Remove(ks[1..], n);
      assert n !in ks ==> [ks[0]] + ks[1..] == ks;
      (if ks[0] == n then [] else [ks[0]]) + rest
  }

  // ----- the three state changes -----

  /** `CreateSubKey`: the key and every missing ancestor are created without
      values or sub-keys, and each new key is appended to its parent's
      sub-key list. */
  function Create(r: Reg, l: Loc): (r': Reg)
    ensures r'.values == r.values
    ensures l in r'.keys
    ensures l in r.keys ==> r' == r
    ensures l !in r.keys ==> r'.keys[l] == []
    ensures forall k :: k in r.keys ==> k in r'.keys && r.keys[k] <= r'.keys[k]
    ensures forall k :: k in r'.keys && k !in r.keys ==> k.hive == l.hive && k.path <= l.path
    ensures forall k :: k in r.keys && !(k.hive == l.hive && k.path < l.path) ==> r'.keys[k] == r.keys[k]
    ensures l !in r.keys && l.path != [] ==> Parent(l) in r'.keys && Last(l) in r'.keys[Parent(l)]
    decreases |l.path|
  {
    if l in r.keys then r
    else if l.path == [] then r.(keys := r.keys[l := []])
    else
      AddChild(Create(r, Parent(l)), l)
  }

  /** The last step of `Create`: a new key `l` below an existing parent. */
  function AddChild(r: Reg, l: Loc): Reg
    requires l.path != [] && Parent(l) in r.keys
  {
    var p := Parent(l);
    r.(keys := r.keys[p := AppendNew(r.keys[p], Last(l))][l := []])
  }

  /** `SetValue`: writes one named value of an existing key. */
  function Set(r: Reg, l: Loc, n: string, v: RegValue): (r': Reg)
    ensures r'.keys == r.keys
    ensures ValuesOnKeys(r) ==> ValuesOnKeys(r')
    ensures forall k, m :: Value(r', k, m) == if k == l && l in r.keys && m == n then Some(v) else Value(r, k, m)
  {
    if l in r.keys then r.(values := r.values[(l, n) := v]) else r
  }

  /** `DeleteSubKeyTree`: removes the key with everything below it, their
      values, and the key's name from its parent's sub-key list. */
  function DeleteTree(r: Reg, l: Loc): (r': Reg)
    requires l.path != []
    ensures forall k :: k in r'.keys <==> k in r.keys && (l !in r.keys || !Under(k, l))
    ensures forall k :: k in r'.keys && k != Parent(l) ==> r'.keys[k] == r.keys[k]
    ensures Parent(l) in r'.keys ==> r'.keys[Parent(l)] == if l in r.keys then Remove(r.keys[Parent(l)], Last(l)) else r.keys[Parent(l)]
    ensures forall p :: p in r'.values <==> p in r.values && (l !in r.keys || !Under(p.0, l))
    ensures forall p :: p in r'.values ==> r'.values[p] == r.values[p]
  {
    if l !in r.keys then r
    else
      var p := Parent(l);
      var ks := map k | k in r.keys && !Under(k, l) :: r.keys[k];
      var vs := map q | q in r.values && !Under(q.0, l) :: r.values[q];
      assert !Under(p, l);
      Reg(if p in ks then ks[p := Remove(ks[p], Last(l))] else ks, vs)
  }

  // ----- well-formedness -----

  predicate RootsExist(r: Reg) {
    Root(CurrentUser) in r.keys && Root(ClassesRoot) in r.keys
  }

  predicate CleanKeys(r: Reg) {
    forall l :: l in r.keys ==> CleanPath(l.path)
  }

  /** Every key but a hive's root is listed by its parent. */
  predicate ParentsList(r: Reg) {
    forall l :: l in r.keys && l.path != [] ==> Parent(l) in r.keys && Last(l) in r.keys[Parent(l)]
  }

  /** Every listed sub-key exists. */
  predicate ChildrenExist(r: Reg) {
    forall l, n :: l in r.keys && n in r.keys[l] ==> Child(l, n) in r.keys
  }

  /** Values belong to existing keys. */
  predicate ValuesOnKeys(r: Reg) {
    forall q :: q in r.values ==> q.0 in r.keys
  }

  /** The shape every real registry has: a tree whose parent links and sub-key
      lists agree, with values only on keys that exist. */
  predicate WellFormed(r: Reg) {
    RootsExist(r) && CleanKeys(r) && ParentsList(r) && ChildrenExist(r) && ValuesOnKeys(r)
  }

  /** A listed sub-key name is always a single clean segment. */
  lemma ListedAreSegments(r: Reg, l: Loc, n: string)
    requires WellFormed(r) && l in r.keys && n in r.keys[l]
    ensures Segment(n)
  {
    var c := Child(l, n);
    assert c in r.keys;
    assert c.path[|c.path| - 1] == n;
  }

  /** In a well-formed store every ancestor of a key exists. */
  lemma {:induction false} AncestorsExist(r: Reg, k: Loc, p: seq<string>)
    requires WellFormed(r) && k in r.keys && p <= k.path
    ensures Loc(k.hive, p) in r.keys
    decreases |k.path|
  {
    if p != k.path {
      var q := Parent(k);
      assert p <= q.path;
      AncestorsExist(r, q, p);
    }
  }

  lemma AddChildParentsList(r: Reg, l: Loc)
    requires ParentsList(r) && l.path != [] && Parent(l) in r.keys && l !in r.keys
    ensures ParentsList(AddChild(r, l))
  {
    var r' := AddChild(r, l);
    forall k | k in r'.keys && k.path != []
      ensures Parent(k) in r'.keys && Last(k) in r'.keys[Parent(k)]
    {
      if k != l {
        assert k in r.keys;
        assert Parent(k) in r.keys && Last(k) in r.keys[Parent(k)];
        assert r.keys[Parent(k)] <= r'.keys[Parent(k)];
      }
    }
  }

  lemma AddChildChildrenExist(r: Reg, l: Loc)
    requires ChildrenExist(r) && l.path != [] && Parent(l) in r.keys && l !in r.keys
    ensures ChildrenExist(AddChild(r, l))
  {
    var r' := AddChild(r, l);
    ParentChild(l);
    forall k, n | k in r'.keys && n in r'.keys[k]
      ensures Child(k, n) in r'.keys
    {
      if k != l && k != Parent(l) {
        assert r'.keys[k] == r.keys[k];
      }
    }
  }

  lemma AddChildWellFormed(r: Reg, l: Loc)
    requires WellFormed(r) && l.path != [] && Parent(l) in r.keys && l !in r.keys && CleanPath(l.path)
    ensures WellFormed(AddChild(r, l))
  {
    AddChildParentsList(r, l);
    AddChildChildrenExist(r, l);
  }

  lemma {:induction false} CreateWellFormed(r: Reg, l: Loc)
    requires WellFormed(r) && CleanPath(l.path)
    ensures WellFormed(Create(r, l))
    decreases |l.path|
  {
    if l !in r.keys && l.path != [] {
      var p := Parent(l);
      assert CleanPath(p.path);
      CreateWellFormed(r, p);
      var r1 := Create(r, p);
      assert l !in r1.keys;
      assert Create(r, l) == AddChild(r1, l);
      AddChildWellFormed(r1, l);
    }
  }

  lemma SetWellFormed(r: Reg, l: Loc, n: string, v: RegValue)
    requires WellFormed(r)
    ensures WellFormed(Set(r, l, n, v))
  {
  }

  lemma DeleteTreeParentsList(r: Reg, l: Loc)
    requires ParentsList(r) && l.path != [] && l in r.keys
    ensures ParentsList(DeleteTree(r, l))
  {
    var r' := DeleteTree(r, l);
    forall k | k in r'.keys && k.path != []
      ensures Parent(k) in r'.keys && Last(k) in r'.keys[Parent(k)]
    {
      assert Parent(k) in r.keys;
      assert !Under(Parent(k), l) by {
        if Under(Parent(k), l) { assert Under(k, l); }
      }
      if Parent(k) == Parent(l) && Last(k) == Last(l) {
        ParentChild(k);
        ParentChild(l);
      }
    }
  }

  /** A child lies under `l` only if its parent does or it is `l` itself. */
  lemma ChildUnder(k: Loc, n: string, l: Loc)
    requires l.path != []
    ensures Under(Child(k, n), l) ==> Under(k, l) || (k == Parent(l) && n == Last(l))
  {
    var c := Child(k, n);
    if Under(c, l) {
      if |l.path| <= |k.path| {
        forall i | 0 <= i < |l.path|
          ensures l.path[i] == k.path[i]
        {
          assert c.path[i] == k.path[i];
        }
      } else {
        assert l.path == c.path;
      }
    }
  }

  lemma DeleteTreeChildrenExist(r: Reg, l: Loc)
    requires ChildrenExist(r) && l.path != [] && l in r.keys
    ensures ChildrenExist(DeleteTree(r, l))
  {
    var r' := DeleteTree(r, l);
    forall k, n | k in r'.keys && n in r'.keys[k]
      ensures Child(k, n) in r'.keys
    {
      assert n in r.keys[k];
      ChildUnder(k, n, l);
    }
  }

  lemma DeleteTreeWellFormed(r: Reg, l: Loc)
    requires WellFormed(r) && l.path != []
    ensures WellFormed(DeleteTree(r, l))
  {
    if l in r.keys {
      DeleteTreeParentsList(r, l);
      DeleteTreeChildrenExist(r, l);
    }
  }

  // ----- operations with their failure cases -----

  /** `CreateSubKey(name)` on a hive's base key. */
  function CreateKeyOp(r: Reg, denied: set<Hive>, h: Hive, name: string): (Reg, Outcome<StoreError>) {
    if h in denied then (r, Fail(Denied)) else (Create(r, At(h, name)), Pass)
  }

  /** `DeleteSubKeyTree(name, false)` on a hive's base key: a name denoting the
      hive itself is refused, a missing key is no error. */
  function DeleteTreeOp(r: Reg, denied: set<Hive>, h: Hive, name: string): (Reg, Outcome<StoreError>) {
    var l := At(h, name);
    if l.path == [] then (r, Fail(HiveSubtree))
    else if l !in r.keys then (r, Pass)
    else if h in denied then (r, Fail(Denied))
    else (DeleteTree(r, l), Pass)
  }

  /** `DeleteSubKey(name, false)` on a hive's base key: refuses a key that
      still has sub-keys. */
  function DeleteKeyOp(r: Reg, denied: set<Hive>, h: Hive, name: string): (Reg, Outcome<StoreError>) {
    var l := At(h, name);
    if l !in r.keys then (r, Pass)
    else if r.keys[l] != [] then (r, Fail(HasSubKeys))
    else if l.path == [] then (r, Fail(HiveSubtree))
    else if h in denied then (r, Fail(Denied))
    else (DeleteTree(r, l), Pass)
  }

  lemma DeleteTreeOpWellFormed(r: Reg, denied: set<Hive>, h: Hive, name: string)
    requires WellFormed(r)
    ensures WellFormed(DeleteTreeOp(r, denied, h, name).0)
  {
    var l := At(h, name);
    if l.path != [] && l in r.keys && h !in denied {
      DeleteTreeWellFormed(r, l);
      assert DeleteTreeOp(r, denied, h, name).0 == DeleteTree(r, l);
    } else {
      assert DeleteTreeOp(r, denied, h, name).0 == r;
    }
  }

  lemma DeleteKeyOpWellFormed(r: Reg, denied: set<Hive>, h: Hive, name: string)
    requires WellFormed(r)
    ensures WellFormed(DeleteKeyOp(r, denied, h, name).0)
  {
    var l := At(h, name);
    if l in r.keys && r.keys[l] == [] && l.path != [] && h !in denied {
      DeleteTreeWellFormed(r, l);
      assert DeleteKeyOp(r, denied, h, name).0 == DeleteTree(r, l);
    } else {
      assert DeleteKeyOp(r, denied, h, name).0 == r;
    }
  }

  /** The registry as an object: the store plus the hives whose writes it refuses. */
  class Registry {
    var store: Reg
    const denied: set<Hive>

    ghost predicate Valid()
      reads this
    {
      WellFormed(store)
    }

    constructor (store: Reg, denied: set<Hive>)
      requires WellFormed(store)
      ensures Valid() && this.store == store && this.denied == denied
    {
      this.store := store;
      this.denied := denied;
    }

    /** `OpenSubKey(name)` on a base key, for reading: the key if it exists. */
    function OpenSubKey(h: Hive, name: string): (k: Option<Loc>)
      reads this
      ensures k.Some? <==> At(h, name) in store.keys
      ensures k.Some? ==> k.value == At(h, name)
    {
      var l := At(h, name);
      if l in store.keys then Some(l) else None
    }

    /** `OpenSubKey(name)` on an open key. */
    function OpenRelative(l: Loc, name: string): (k: Option<Loc>)
      reads this
      ensures k.Some? <==> Rel(l, name) in store.keys
      ensures k.Some? ==> k.value == Rel(l, name)
    {
      if Rel(l, name) in store.keys then Some(Rel(l, name)) else None
    }

    /** `GetSubKeyNames()` on an open key. The registry promises no order; the
        model lists the children in the order `Create` added them. */
    function GetSubKeyNames(l: Loc): (names: seq<string>)
      reads this
      requires l in store.keys
      ensures Valid() ==> forall i :: 0 <= i < |names| ==> Child(l, names[i]) in store.keys
    {
      store.keys[l]
    }

    /** `OpenSubKey(name, true)` on a base key: a missing key gives null, an
        existing key in a refused hive raises. */
    function OpenSubKeyWritable(h: Hive, name: string): (k: Result<Option<Loc>, StoreError>)
      reads this
      ensures k.Failure? <==> At(h, name) in store.keys && h in denied
      ensures k.Success? ==> k.value == OpenSubKey(h, name)
    {
      var l := At(h, name);
      if l !in store.keys then Success(None)
      else if h in denied then Failure(Denied)
      else Success(Some(l))
    }

    method CreateSubKey(h: Hive, name: string) returns (k: Result<Loc, StoreError>)
      modifies this
      ensures old(Valid()) ==> Valid()
      ensures k.Failure? ==> k.error == Denied
      ensures (store, if k.Failure? then Fail(k.error) else Pass) == CreateKeyOp(old(store), denied, h, name)
      ensures k.Success? ==> k.value == At(h, name)
    {
      if h in denied {
        return Failure(Denied);
      }
      if WellFormed(store) { CreateWellFormed(store, At(h, name)); }
      store := Create(store, At(h, name));
      return Success(At(h, name));
    }

    method SetValue(l: Loc, n: string, v: RegValue)
      modifies this
      ensures old(Valid()) ==> Valid()
      ensures store == Set(old(store), l, n, v)
    {
      if WellFormed(store) { SetWellFormed(store, l, n, v); }
      store := Set(store, l, n, v);
    }

    method DeleteSubKeyTree(h: Hive, name: string) returns (o: Outcome<StoreError>)
      modifies this
      ensures old(Valid()) ==> Valid()
      ensures (store, o) == DeleteTreeOp(old(store), denied, h, name)
    {
      if WellFormed(store) { DeleteTreeOpWellFormed(store, denied, h, name); }
      var r;
      r, o := DeleteTreeOp(store, denied, h, name).0, DeleteTreeOp(store, denied, h, name).1;
      store := r;
    }

    method DeleteSubKey(h: Hive, name: string) returns (o: Outcome<StoreError>)
      modifies this
      ensures old(Valid()) ==> Valid()
      ensures (store, o) == DeleteKeyOp(old(store), denied, h, name)
    {
      if WellFormed(store) { DeleteKeyOpWellFormed(store, denied, h, name); }
      var r;
      r, o := DeleteKeyOp(store, denied, h, name).0, DeleteKeyOp(store, denied, h, name).1;
      store := r;
    }
  }
}
