/** The sorted list of service names (skynet_handle.c) as a finite map. */
module NameDirectory {
  type Letter = c: int | 1 <= c < 256 witness 1

  /** A string without its terminating zero. */
  type CString = seq<Letter>

  datatype Name = Name(name: CString, handle: nat)

  /** strcmp: the sign is that of the first difference, the terminating zero being less than any letter. */
  function Strcmp(a: CString, b: CString): int {
    if a == [] && b == [] then 0
    else if a == [] then -b[0]
    else if b == [] then a[0]
    else if a[0] != b[0] then a[0] - b[0]
    else Strcmp(a[1..], b[1..])
  }

  lemma {:induction false} SameIffZero(a: CString, b: CString)
    ensures Strcmp(a, b) == 0 <==> a == b
  {
    if a != [] && b != [] {
      SameIffZero(a[1..], b[1..]);
      assert a == [a[0]] + a[1..] && b == [b[0]] + b[1..];
    }
  }

  lemma {:induction false} Antisymmetric(a: CString, b: CString)
    ensures Strcmp(a, b) == -Strcmp(b, a)
  {
    if a != [] && b != [] { Antisymmetric(a[1..], b[1..]); }
  }

  lemma {:induction false} Transitive(a: CString, b: CString, c: CString)
    requires Strcmp(a, b) < 0 && Strcmp(b, c) < 0
    ensures Strcmp(a, c) < 0
  {
    if a != [] && b != [] && c != [] && a[0] == b[0] == c[0] { Transitive(a[1..], b[1..], c[1..]); }
  }

  // ---------------------------------------------------------------- the list and the map

  predicate Before(x: Name, y: Name) { Strcmp(x.name, y.name) < 0 }

  ghost predicate Sorted(s: seq<Name>) {
    forall i, j :: 0 <= i < j < |s| ==> Before(s[i], s[j])
  }

  /** The list holds exactly the bindings of the map. */
  ghost predicate Lists(s: seq<Name>, m: map<CString, nat>) {
    && (forall x <- s :: x.name in m && m[x.name] == x.handle)
    && (forall n <- m :: Name(n, m[n]) in s)
  }

  ghost predicate AllBelow(s: seq<Name>, name: CString) {
    forall i :: 0 <= i < |s| ==> Strcmp(s[i].name, name) < 0
  }

  ghost predicate AllAbove(s: seq<Name>, name: CString) {
    forall i :: 0 <= i < |s| ==> Strcmp(s[i].name, name) > 0
  }

  /** What the middle of a sorted list says of one half of it. */
  lemma HalfDecided(s: seq<Name>, mid: nat, name: CString)
    requires Sorted(s) && mid < |s|
    ensures Strcmp(s[mid].name, name) < 0 ==> AllBelow(s[..mid + 1], name)
    ensures Strcmp(s[mid].name, name) > 0 ==> AllAbove(s[mid..], name)
  {
    hide Strcmp;
    if Strcmp(s[mid].name, name) < 0 {
      forall i | 0 <= i < mid ensures Strcmp(s[i].name, name) < 0 {
        assert Before(s[i], s[mid]);
        Transitive(s[i].name, s[mid].name, name);
      }
    }
    if Strcmp(s[mid].name, name) > 0 {
      Antisymmetric(s[mid].name, name);
      forall i | mid < i < |s| ensures Strcmp(s[i].name, name) > 0 {
        assert Before(s[mid], s[i]);
        Transitive(name, s[mid].name, s[i].name);
        Antisymmetric(name, s[i].name);
      }
    }
  }

  /** A name with everything before it below and everything after it above is not in the list. */
  lemma NotListed(s: seq<Name>, k: nat, name: CString, m: map<CString, nat>)
    requires Lists(s, m) && k <= |s| && AllBelow(s[..k], name) && AllAbove(s[k..], name)
    ensures name !in m
  {
    hide Strcmp;
    forall x <- s ensures x.name != name {
      var i :| 0 <= i < |s| && s[i] == x;
      SameIffZero(x.name, name);
      if i < k { assert s[..k][i] == x; } else { assert s[k..][i - k] == x; }
    }
  }

  function Inserted(s: seq<Name>, k: nat, x: Name): seq<Name>
    requires k <= |s|
  {
    s[..k] + [x] + s[k..]
  }

  lemma InsertSorted(s: seq<Name>, k: nat, x: Name)
    requires Sorted(s) && k <= |s| && AllBelow(s[..k], x.name) && AllAbove(s[k..], x.name)
    ensures Sorted(Inserted(s, k, x))
  {
    hide Strcmp;
    var t := Inserted(s, k, x);
    forall i, j | 0 <= i < j < |t| ensures Before(t[i], t[j]) {
      if i == k {
        assert t[j] == s[k..][j - k - 1];
        Antisymmetric(x.name, t[j].name);
      } else if j == k {
        assert t[i] == s[..k][i];
      } else {
        assert t[i] == s[if i < k then i else i - 1] && t[j] == s[if j < k then j else j - 1];
      }
    }
  }

  lemma InsertKeeps(s: seq<Name>, k: nat, x: Name, m: map<CString, nat>)
    requires Sorted(s) && Lists(s, m) && k <= |s| && AllBelow(s[..k], x.name) && AllAbove(s[k..], x.name)
    ensures x.name !in m
    ensures Sorted(Inserted(s, k, x)) && Lists(Inserted(s, k, x), m[x.name := x.handle])
  {
    InsertSorted(s, k, x);
    NotListed(s, k, x.name, m);
    hide Strcmp, Sorted, AllBelow, AllAbove;
    var t := Inserted(s, k, x);
    assert s == s[..k] + s[k..];
    forall y ensures y in t <==> y == x || y in s {
    }
  }

  // ---------------------------------------------------------------- removing the names of a handle

  function Without(s: seq<Name>, handle: nat): (t: seq<Name>)
    ensures |t| <= |s|
  {
    if s == [] then []
    else
      var t := Without(s[..|s| - 1], handle);
      if s[|s| - 1].handle == handle then t else t + [s[|s| - 1]]
  }

  lemma {:induction false} WithoutHolds(s: seq<Name>, handle: nat, x: Name)
    ensures x in Without(s, handle) <==> x in s && x.handle != handle
  {
    if s != [] {
      WithoutHolds(s[..|s| - 1], handle, x);
      assert s == s[..|s| - 1] + [s[|s| - 1]];
    }
  }

  lemma {:induction false} WithoutSorted(s: seq<Name>, handle: nat)
    requires Sorted(s)
    ensures Sorted(Without(s, handle))
  {
    if s != [] {
      var n := |s| - 1;
      WithoutSorted(s[..n], handle);
      var t := Without(s[..n], handle);
      forall i | 0 <= i < |t| ensures Before(t[i], s[n]) {
        WithoutHolds(s[..n], handle, t[i]);
        var j :| 0 <= j < n && s[..n][j] == t[i];
        assert Before(s[j], s[n]);
      }
    }
  }

  ghost function DropHandles(m: map<CString, nat>, handles: set<nat>): map<CString, nat> {
    map n | n in m && m[n] !in handles :: m[n]
  }

  /** Striking a handle out of the list removes exactly its names from the map. */
  lemma WithoutKeeps(s: seq<Name>, handle: nat, m: map<CString, nat>)
    requires Sorted(s) && Lists(s, m)
    ensures Sorted(Without(s, handle)) && Lists(Without(s, handle), DropHandles(m, {handle}))
  {
    WithoutSorted(s, handle);
    var d := DropHandles(m, {handle});
    forall x <- Without(s, handle) ensures x.name in d && d[x.name] == x.handle {
      WithoutHolds(s, handle, x);
    }
    forall n <- d ensures Name(n, d[n]) in Without(s, handle) {
      WithoutHolds(s, handle, Name(n, d[n]));
    }
  }
}
