/**
 * The component scan as a function of the classes it visits: which class
 * ends up under which key, with the scan stopping for good at the first
 * marked class that cannot be instantiated.
 */
module Scan {
  import opened Naming
  import opened Reflection

  /** The identity key of a class: its simple name with the first letter lower-cased. */
  function Key(t: TypeDesc): string
  {
    Uncapitalize(SimpleName(t.name))
  }

  /** A marked class whose instantiation throws; it ends the scan. */
  predicate InstantiationFails(t: TypeDesc)
  {
    t.hasComponent && !t.instantiable
  }

  /** The index of the first class whose instantiation throws, or |scan| when none does. */
  function ScanStop(scan: seq<TypeDesc>): (n: nat)
    ensures n <= |scan|
    ensures forall i :: 0 <= i < n ==> !InstantiationFails(scan[i])
    ensures n < |scan| ==> InstantiationFails(scan[n])
  {
    if scan == [] then 0
    else if InstantiationFails(scan[0]) then 0
    else 1 + ScanStop(scan[1..])
  }

  /** The registration loop run from the map `m` over the classes `scan`, in order. */
  function Register(m: map<string, TypeDesc>, scan: seq<TypeDesc>): map<string, TypeDesc>
    decreases |scan|
  {
    if scan == [] then m
    else if !scan[0].hasComponent then Register(m, scan[1..])
    else if !scan[0].instantiable then m
    else Register(m[Key(scan[0]) := scan[0]], scan[1..])
  }

  /** One step of the loop over a class that does not fail: a marked class is put under its key. */
  function Step(m: map<string, TypeDesc>, t: TypeDesc): map<string, TypeDesc>
  {
    if t.hasComponent then m[Key(t) := t] else m
  }

  lemma RegisterUnfold(m: map<string, TypeDesc>, scan: seq<TypeDesc>)
    requires scan != [] && !InstantiationFails(scan[0])
    ensures Register(m, scan) == Register(Step(m, scan[0]), scan[1..])
  {
  }

  /** The loop at class `i`: an unmarked class is skipped. */
  lemma RegisterSkipAt(m: map<string, TypeDesc>, scan: seq<TypeDesc>, i: int)
    requires 0 <= i < |scan| && !scan[i].hasComponent
    ensures Register(m, scan[i..]) == Register(m, scan[i + 1..])
  {
    assert scan[i..][0] == scan[i] && scan[i..][1..] == scan[i + 1..];
  }

  /** The loop at class `i`: a marked class that can be instantiated is put under its key. */
  lemma RegisterPutAt(m: map<string, TypeDesc>, scan: seq<TypeDesc>, i: int)
    requires 0 <= i < |scan| && scan[i].hasComponent && scan[i].instantiable
    ensures Register(m, scan[i..]) == Register(m[Key(scan[i]) := scan[i]], scan[i + 1..])
  {
    assert scan[i..][0] == scan[i] && scan[i..][1..] == scan[i + 1..];
  }

  /** The loop at class `i`: a marked class whose instantiation throws ends it. */
  lemma RegisterFailAt(m: map<string, TypeDesc>, scan: seq<TypeDesc>, i: int)
    requires 0 <= i < |scan| && InstantiationFails(scan[i])
    ensures Register(m, scan[i..]) == m
  {
    assert scan[i..][0] == scan[i];
  }

  /** The classes of the beans the scan registers, by key, starting from an empty map. */
  function Registry(scan: seq<TypeDesc>): map<string, TypeDesc>
  {
    Register(map[], scan)
  }

  /** Class `i` of the scan is registered (reached before any failure and marked) under key `k`. */
  predicate RegisteredAt(scan: seq<TypeDesc>, i: int, k: string)
  {
    0 <= i < ScanStop(scan) && scan[i].hasComponent && Key(scan[i]) == k
  }

  lemma ShiftRegisteredAt(scan: seq<TypeDesc>, i: int, k: string)
    requires scan != [] && !InstantiationFails(scan[0]) && 0 <= i
    ensures RegisteredAt(scan, i + 1, k) <==> RegisteredAt(scan[1..], i, k)
  {
    if i + 1 < |scan| {
      assert scan[i + 1] == scan[1..][i];
    }
  }

  /** A key is in the result exactly when it was there before or some registered class derives it. */
  lemma {:induction false} RegisterKeys(m: map<string, TypeDesc>, scan: seq<TypeDesc>, k: string)
    ensures k in Register(m, scan) <==> k in m || exists i :: RegisteredAt(scan, i, k)
    decreases |scan|
  {
    if scan == [] || InstantiationFails(scan[0]) {
      assert forall i :: !RegisteredAt(scan, i, k);
    } else {
      var m' := Step(m, scan[0]);
      RegisterUnfold(m, scan);
      RegisterKeys(m', scan[1..], k);
      if scan[0].hasComponent && Key(scan[0]) == k {
        assert RegisteredAt(scan, 0, k);
      }
      if exists i :: RegisteredAt(scan[1..], i, k) {
        var i :| RegisteredAt(scan[1..], i, k);
        ShiftRegisteredAt(scan, i, k);
      }
      if exists i :: RegisteredAt(scan, i, k) {
        var i :| RegisteredAt(scan, i, k);
        if i > 0 {
          ShiftRegisteredAt(scan, i - 1, k);
        }
      }
    }
  }

  /** A key that no registered class derives keeps the value it had before the scan. */
  lemma {:induction false} RegisterKeeps(m: map<string, TypeDesc>, scan: seq<TypeDesc>, k: string)
    requires forall i :: !RegisteredAt(scan, i, k)
    ensures k in Register(m, scan) <==> k in m
    ensures k in m ==> Register(m, scan)[k] == m[k]
    decreases |scan|
  {
    if scan != [] && !InstantiationFails(scan[0]) {
      var m' := Step(m, scan[0]);
      RegisterUnfold(m, scan);
      assert !RegisteredAt(scan, 0, k);
      forall i | 0 <= i
        ensures !RegisteredAt(scan[1..], i, k)
      {
        ShiftRegisteredAt(scan, i, k);
      }
      RegisterKeeps(m', scan[1..], k);
    }
  }

  /** The last registered class deriving a key is the one stored under it: later classes overwrite earlier ones. */
  lemma {:induction false} RegisterLastWins(m: map<string, TypeDesc>, scan: seq<TypeDesc>, i: int, k: string)
    requires 0 <= i < |scan| && RegisteredAt(scan, i, k)
    requires forall j :: i < j < |scan| ==> !RegisteredAt(scan, j, k)
    ensures k in Register(m, scan) && Register(m, scan)[k] == scan[i]
    decreases |scan|
  {
    var m' := Step(m, scan[0]);
    RegisterUnfold(m, scan);
    if i == 0 {
      forall j | 0 <= j
        ensures !RegisteredAt(scan[1..], j, k)
      {
        ShiftRegisteredAt(scan, j, k);
      }
      RegisterKeeps(m', scan[1..], k);
    } else {
      LastWinsTail(scan, i, k);
      RegisterLastWins(m', scan[1..], i - 1, k);
    }
  }

  lemma LastWinsTail(scan: seq<TypeDesc>, i: int, k: string)
    requires 0 < i < |scan| && RegisteredAt(scan, i, k)
    requires forall j :: i < j < |scan| ==> !RegisteredAt(scan, j, k)
    ensures scan[1..][i - 1] == scan[i] && RegisteredAt(scan[1..], i - 1, k)
    ensures forall j :: i - 1 < j < |scan[1..]| ==> !RegisteredAt(scan[1..], j, k)
  {
    ShiftRegisteredAt(scan, i - 1, k);
    forall j | i - 1 < j < |scan[1..]|
      ensures !RegisteredAt(scan[1..], j, k)
    {
      ShiftRegisteredAt(scan, j, k);
    }
  }

  /** Every entry of the result was there before or is a registered class stored under its own key. */
  lemma {:induction false} RegisterValues(m: map<string, TypeDesc>, scan: seq<TypeDesc>, k: string)
    requires k in Register(m, scan)
    ensures (k in m && Register(m, scan)[k] == m[k])
         || exists i :: RegisteredAt(scan, i, k) && Register(m, scan)[k] == scan[i]
    decreases |scan|
  {
    if scan != [] && !InstantiationFails(scan[0]) {
      var m' := Step(m, scan[0]);
      RegisterUnfold(m, scan);
      RegisterValues(m', scan[1..], k);
      if exists i :: RegisteredAt(scan[1..], i, k) && Register(m', scan[1..])[k] == scan[1..][i] {
        var i :| RegisteredAt(scan[1..], i, k) && Register(m', scan[1..])[k] == scan[1..][i];
        ShiftRegisteredAt(scan, i, k);
        assert scan[1..][i] == scan[i + 1];
      } else if scan[0].hasComponent && k == Key(scan[0]) {
        assert RegisteredAt(scan, 0, k);
      }
    }
  }

  /** Nothing from the failing class onward is registered, whatever follows it. */
  lemma {:induction false} RegisterStopsAtFailure(m: map<string, TypeDesc>, scan: seq<TypeDesc>, rest: seq<TypeDesc>)
    requires ScanStop(scan) < |scan|
    ensures Register(m, scan[..ScanStop(scan) + 1] + rest) == Register(m, scan)
    ensures Register(m, scan[..ScanStop(scan)]) == Register(m, scan)
    decreases |scan|
  {
    var n := ScanStop(scan);
    if n == 0 {
      assert (scan[..1] + rest)[0] == scan[0];
      assert scan[..0] == [];
    } else {
      var m' := Step(m, scan[0]);
      RegisterUnfold(m, scan);
      assert ScanStop(scan[1..]) == n - 1;
      RegisterStopsAtFailure(m', scan[1..], rest);
      assert (scan[..n + 1] + rest)[1..] == scan[1..][..n] + rest;
      assert scan[..n][1..] == scan[1..][..n - 1];
    }
  }

  /** The keys of the registry: exactly those derived by marked classes the scan reaches. */
  lemma RegistryKeys(scan: seq<TypeDesc>, k: string)
    ensures k in Registry(scan) <==> exists i :: RegisteredAt(scan, i, k)
  {
    RegisterKeys(map[], scan, k);
  }

  /** Each registry entry holds a marked, instantiable class of the scan whose key is the entry's key. */
  lemma RegistryValues(scan: seq<TypeDesc>, k: string)
    requires k in Registry(scan)
    ensures Registry(scan)[k].hasComponent && Registry(scan)[k].instantiable
    ensures Key(Registry(scan)[k]) == k
    ensures exists i :: RegisteredAt(scan, i, k) && Registry(scan)[k] == scan[i]
  {
    RegisterValues(map[], scan, k);
  }

  /** When several classes derive one key, the registry holds the one scanned last. */
  lemma RegistryLastWins(scan: seq<TypeDesc>, i: int)
    requires 0 <= i < |scan| && RegisteredAt(scan, i, Key(scan[i]))
    requires forall j :: i < j < |scan| ==> !RegisteredAt(scan, j, Key(scan[i]))
    ensures Key(scan[i]) in Registry(scan) && Registry(scan)[Key(scan[i])] == scan[i]
  {
    RegisterLastWins(map[], scan, i, Key(scan[i]));
  }

  /** A failing class ends the scan: the registry is that of the classes before it, whatever comes after. */
  lemma RegistryStopsAtFailure(scan: seq<TypeDesc>, rest: seq<TypeDesc>)
    requires ScanStop(scan) < |scan|
    ensures Registry(scan[..ScanStop(scan) + 1] + rest) == Registry(scan)
    ensures Registry(scan[..ScanStop(scan)]) == Registry(scan)
  {
    RegisterStopsAtFailure(map[], scan, rest);
  }

  /** Rearranging a scan in which no class fails gives a scan in which no class fails. */
  lemma ScanStopPermuted(a: seq<TypeDesc>, b: seq<TypeDesc>)
    requires multiset(a) == multiset(b) && ScanStop(a) == |a|
    ensures ScanStop(b) == |b|
  {
    forall i | 0 <= i < |b|
      ensures !InstantiationFails(b[i])
    {
      assert b[i] in multiset(a);
    }
  }

  /** A class registered in one complete scan is registered, under the same key, wherever a rearrangement puts it. */
  lemma RegisteredPermuted(a: seq<TypeDesc>, b: seq<TypeDesc>, i: int, k: string)
    requires multiset(a) == multiset(b) && ScanStop(b) == |b| && RegisteredAt(a, i, k)
    ensures exists j :: RegisteredAt(b, j, k) && b[j] == a[i]
  {
    assert a[i] in multiset(b);
    var j :| 0 <= j < |b| && b[j] == a[i];
    assert RegisteredAt(b, j, k);
  }

  /**
   * When no class fails and no two marked classes share a key, the order of
   * the scan does not matter: any rearrangement registers the same map.
   */
  lemma RegistryOrderFree(a: seq<TypeDesc>, b: seq<TypeDesc>)
    requires multiset(a) == multiset(b) && ScanStop(a) == |a|
    requires forall i, j :: 0 <= i < |a| && 0 <= j < |a| && a[i].hasComponent && a[j].hasComponent && Key(a[i]) == Key(a[j]) ==> a[i] == a[j]
    ensures Registry(a) == Registry(b)
  {
    ScanStopPermuted(a, b);
    forall k
      ensures k in Registry(a) <==> k in Registry(b)
      ensures k in Registry(a) ==> Registry(a)[k] == Registry(b)[k]
    {
      RegistryKeys(a, k);
      RegistryKeys(b, k);
      if i :| RegisteredAt(a, i, k) {
        RegisteredPermuted(a, b, i, k);
      }
      if j :| RegisteredAt(b, j, k) {
        RegisteredPermuted(b, a, j, k);
      }
      if k in Registry(a) {
        RegistryValues(a, k);
        RegistryValues(b, k);
        var i :| RegisteredAt(a, i, k) && Registry(a)[k] == a[i];
        var j :| RegisteredAt(b, j, k) && Registry(b)[k] == b[j];
        RegisteredPermuted(b, a, j, k);
      }
    }
    assert Registry(a).Keys == Registry(b).Keys;
  }
}
