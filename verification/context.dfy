/**
 * The container: a hash map from identity key to bean, filled by the
 * component scan and then completed by autowiring, both run by the
 * constructor; afterwards beans are looked up by key or by type.
 */
module Context {
  import opened Reflection
  import opened Scan
  import opened Wiring

  /** `ks` lists every key of `keys` exactly once. */
  ghost predicate Enumerates(ks: seq<string>, keys: set<string>)
  {
    && (forall k :: k in ks <==> k in keys)
    && (forall i, j :: 0 <= i < j < |ks| ==> ks[i] != ks[j])
  }

  /** The beans of map `m` listed in key order `ks`. */
  function ValuesIn(m: map<string, Bean>, ks: seq<string>): (vs: seq<Bean>)
    requires forall k :: k in ks ==> k in m
    ensures |vs| == |ks|
    ensures forall i :: 0 <= i < |ks| ==> vs[i] == m[ks[i]]
  {
    if ks == [] then [] else [m[ks[0]]] + ValuesIn(m, ks[1..])
  }

  /** The class of each bean, by key. */
  function ClassesOf(m: map<string, Bean>): map<string, TypeDesc>
  {
    map k | k in m :: m[k].cls
  }

  lemma ClassesOfPut(m: map<string, Bean>, k: string, b: Bean)
    ensures ClassesOf(m[k := b]) == ClassesOf(m)[k := b.cls]
  {
  }

  /**
   * The iteration order of a hash map holding the keys `keys`: every key
   * once, in an order the model leaves open (it depends on hashing).
   */
  method IterationOrder(keys: set<string>) returns (ks: seq<string>)
    ensures Enumerates(ks, keys)
  {
    ks := [];
    var rest := keys;
    while rest != {}
      invariant forall k :: k in keys <==> k in ks || k in rest
      invariant forall k :: k in ks ==> k !in rest
      invariant forall i, j :: 0 <= i < j < |ks| ==> ks[i] != ks[j]
      decreases |rest|
    {
      var k :| k in rest;
      ks := ks + [k];
      rest := rest - {k};
    }
  }

  class AppContext {
    /** The bean map: identity key to bean. */
    var beans: map<string, Bean>
    /** The map's current iteration order over its keys. */
    var order: seq<string>

    /** The iteration order lists the map's keys, and no bean is stored under two keys. */
    ghost predicate Valid()
      reads this
    {
      && Enumerates(order, beans.Keys)
      && forall k, k' :: k in beans && k' in beans && k != k' ==> beans[k] != beans[k']
    }

    /** The map's values in iteration order. */
    function Values(): (vs: seq<Bean>)
      requires Valid()
      reads this
      ensures |vs| == |order|
      ensures forall i :: 0 <= i < |order| ==> vs[i] == beans[order[i]]
    {
      ValuesIn(beans, order)
    }

    /** No bean is listed twice. */
    lemma ValuesDistinct(i: int, j: int)
      requires Valid() && 0 <= i < |order| && 0 <= j < |order| && i != j
      ensures Values()[i] != Values()[j]
    {
    }

    /** Every stored bean is listed. */
    lemma ValuesCover(k: string)
      requires Valid() && k in beans
      ensures beans[k] in Values()
    {
      var i :| 0 <= i < |order| && order[i] == k;
      assert Values()[i] == beans[k];
    }

    /**
     * The state autowiring leaves behind when it starts from beans whose
     * fields are all null: each bean up to the one where wiring stopped holds
     * what wiring its own class's fields gives it; later beans stay all null.
     */
    ghost predicate Wired()
      requires Valid()
      reads this, beans.Values
    {
      var vs := Values();
      forall i :: 0 <= i < |vs| ==>
        vs[i].fields == if i <= WiringStop(vs) then Wire(map[], vs[i].cls.name, vs[i].cls.declaredFields, vs) else map[]
    }

    /**
     * After construction, an @Autowired field of a bean that wiring reached,
     * declared before any field whose assignment throws, holds the result of
     * lookup by the field's declared type over all beans.
     */
    lemma WiredField(i: int, j: int)
      requires Valid() && Wired() && 0 <= i < |order| && i <= WiringStop(Values())
      requires DistinctFieldNames(Values()[i].cls.declaredFields)
      requires 0 <= j < FailIndex(Values()[i].cls.declaredFields) && Values()[i].cls.declaredFields[j].autowired
      ensures var b, f := Values()[i], Values()[i].cls.declaredFields[j];
        b.Get(FieldRef(b.cls.name, f.name)) == FirstInstance(Values(), f.declaredType)
    {
      var vs := Values();
      var c := vs[i].cls;
      assert vs[i].fields == Wire(map[], c.name, c.declaredFields, vs);
      WireAssigns(map[], c.name, c.declaredFields, vs, j);
    }

    /** Every bean listed by Values() is stored under some key. */
    lemma ValuesStored()
      requires Valid()
      ensures forall v :: v in Values() ==> v in beans.Values
    {
      var vs := Values();
      forall v | v in vs
        ensures v in beans.Values
      {
        var i :| 0 <= i < |vs| && vs[i] == v;
        assert order[i] in beans;
      }
    }

    /**
     * Creates the container: an empty map, then the component scan over the
     * classes `scan` (in the order the class path lists them), then autowiring.
     */
    constructor (scan: seq<TypeDesc>)
      ensures Valid()
      ensures ClassesOf(beans) == Registry(scan)
      ensures Wired()
    {
      beans := map[];
      order := [];
      new;
      DoComponentScan(scan);
      DoAutowired();
    }

    /** Stores `b` under `key`, replacing any bean stored there before. */
    method Put(key: string, b: Bean)
      requires Valid()
      requires forall k :: k in beans ==> beans[k] != b
      modifies this
      ensures Valid()
      ensures beans == old(beans)[key := b]
      ensures key in old(beans) ==> order == old(order)
    {
      var isNew := key !in beans;
      beans := beans[key := b];
      if isNew {
        order := IterationOrder(beans.Keys);
      }
    }

    /**
     * The component scan: every class carrying @Component is instantiated and
     * put under its identity key; the first instantiation that throws ends the
     * scan, keeping what was put before it.
     */
    method DoComponentScan(scan: seq<TypeDesc>)
      requires Valid() && beans == map[]
      modifies this
      ensures Valid()
      ensures ClassesOf(beans) == Registry(scan)
      ensures forall k :: k in beans ==> fresh(beans[k]) && beans[k].fields == map[]
    {
      assert ClassesOf(beans) == map[];
      var i := 0;
      while i < |scan|
        invariant 0 <= i <= |scan|
        invariant Valid()
        invariant Register(ClassesOf(beans), scan[i..]) == Registry(scan)
        invariant forall k :: k in beans ==> fresh(beans[k]) && beans[k].fields == map[]
      {
        var t := scan[i];
        if t.hasComponent {
          var id := Key(t);
          if !t.instantiable {
            RegisterFailAt(ClassesOf(beans), scan, i);
            return;
          }
          var b := new Bean(t);
          RegisterPutAt(ClassesOf(beans), scan, i);
          ClassesOfPut(beans, id, b);
          Put(id, b);
        } else {
          RegisterSkipAt(ClassesOf(beans), scan, i);
        }
        i := i + 1;
      }
    }

    /**
     * Autowiring: for every bean, in iteration order, every @Autowired field
     * its own class declares is assigned the result of lookup by the field's
     * declared type; the first assignment that throws ends all wiring.
     */
    method DoAutowired()
      requires Valid()
      modifies beans.Values
      ensures Valid() && beans == old(beans) && order == old(order)
      ensures var vs := Values();
        forall i :: 0 <= i < |vs| ==>
          vs[i].fields == if i <= WiringStop(vs) then Wire(old(vs[i].fields), vs[i].cls.name, vs[i].cls.declaredFields, vs) else old(vs[i].fields)
    {
      var vs := Values();
      ValuesStored();
      WireAll(vs);
    }

    /**
     * The outer loop of autowiring: the beans `vs`, in iteration order; it
     * ends early at the first bean whose wiring throws.
     */
    method WireAll(vs: seq<Bean>)
      requires Valid() && vs == Values()
      modifies set v | v in vs
      ensures forall j :: 0 <= j < |vs| ==>
        vs[j].fields == if j <= WiringStop(vs) then Wire(old(vs[j].fields), vs[j].cls.name, vs[j].cls.declaredFields, vs) else old(vs[j].fields)
    {
      var i := 0;
      while i < |vs|
        invariant 0 <= i <= |vs| && i <= WiringStop(vs)
        invariant forall j :: 0 <= j < i ==> vs[j].fields == Wire(old(vs[j].fields), vs[j].cls.name, vs[j].cls.declaredFields, vs)
        invariant forall j :: i <= j < |vs| ==> vs[j].fields == old(vs[j].fields)
      {
        forall j | 0 <= j < |vs| && j != i
          ensures vs[j] != vs[i]
        {
          ValuesDistinct(i, j);
        }
        var ok := WireBean(vs[i], vs);
        if !ok {
          WiringStopAt(vs, i);
          return;
        }
        WiringStopAfter(vs, i);
        i := i + 1;
      }
    }

    /**
     * The inner loop of autowiring for one bean: its class's own fields in
     * declaration order; `ok` is false when an assignment threw, which ends
     * the loop at that field.
     */
    method WireBean(b: Bean, vs: seq<Bean>) returns (ok: bool)
      requires Valid() && vs == Values()
      modifies b
      ensures ok == !BeanWiringFails(b)
      ensures b.fields == Wire(old(b.fields), b.cls.name, b.cls.declaredFields, vs)
    {
      var fs := b.cls.declaredFields;
      var k := 0;
      while k < |fs|
        invariant 0 <= k <= |fs| && k <= FailIndex(fs)
        invariant Wire(b.fields, b.cls.name, fs[k..], vs) == Wire(old(b.fields), b.cls.name, fs, vs)
      {
        var f := fs[k];
        if f.autowired {
          var target := GetBeanOfType(f.declaredType);
          if !f.settable {
            WireFailAt(b.fields, b.cls.name, fs, vs, k);
            return false;
          }
          WireSetAt(b.fields, b.cls.name, fs, vs, k);
          b.fields := b.fields[FieldRef(b.cls.name, f.name) := target];
        } else {
          WireSkipAt(b.fields, b.cls.name, fs, vs, k);
        }
        k := k + 1;
      }
      return true;
    }

    /** Lookup by key: the bean stored under `key`, or null when there is none. */
    function GetBean(key: string): (r: Bean?)
      reads this
      ensures r == null <==> key !in beans
      ensures r != null ==> r == beans[key]
    {
      if key in beans then beans[key] else null
    }

    /** Lookup by type: the first bean, in iteration order, that is an instance of `t`, or null. */
    method GetBeanOfType(t: string) returns (r: Bean?)
      requires Valid()
      ensures r == FirstInstance(Values(), t)
    {
      var vs := Values();
      for i := 0 to |vs|
        invariant forall j :: 0 <= j < i ==> !InstanceOf(vs[j].cls, t)
      {
        if InstanceOf(vs[i].cls, t) {
          FirstInstanceAt(vs, t, i);
          return vs[i];
        }
      }
      return null;
    }
  }
}
