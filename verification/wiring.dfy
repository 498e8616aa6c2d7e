/**
 * Bean instances and what autowiring does to them: lookup by type as a
 * first-match search over the beans in iteration order, and the field
 * pass over one bean's own declared fields, which stops at the first
 * assignment that throws.
 */
module Wiring {
  import opened Reflection

  /** An instance created by the container. Fields never assigned hold null. */
  class Bean {
    const cls: TypeDesc
    var fields: map<FieldRef, Bean?>

    /** A default-constructed instance: every field is null. */
    constructor (cls: TypeDesc)
      ensures this.cls == cls && fields == map[]
    {
      this.cls := cls;
      fields := map[];
    }

    /** Reads a field of this object. */
    function Get(f: FieldRef): (r: Bean?)
      reads this
    {
      FieldValue(fields, f)
    }
  }

  /** The value of a field in a field map: null unless it was assigned. */
  function FieldValue(fields: map<FieldRef, Bean?>, f: FieldRef): Bean?
  {
    if f in fields then fields[f] else null
  }

  /** The index of the first bean that is an instance of type `t`, or |vs| when there is none. */
  function FirstInstanceIndex(vs: seq<Bean>, t: string): (k: nat)
    ensures k <= |vs|
    ensures forall j :: 0 <= j < k ==> !InstanceOf(vs[j].cls, t)
    ensures k < |vs| ==> InstanceOf(vs[k].cls, t)
  {
    if vs == [] then 0
    else if InstanceOf(vs[0].cls, t) then 0
    else 1 + FirstInstanceIndex(vs[1..], t)
  }

  /** Lookup by type: the first bean, in iteration order, that is an instance of `t`; null when none is. */
  function FirstInstance(vs: seq<Bean>, t: string): (r: Bean?)
    ensures r == null <==> forall v :: v in vs ==> !InstanceOf(v.cls, t)
    ensures r != null ==> r in vs && InstanceOf(r.cls, t)
  {
    var k := FirstInstanceIndex(vs, t);
    if k < |vs| then vs[k] else null
  }

  /** A bean preceded by no instance of `t` and itself an instance is the one lookup by type returns. */
  lemma FirstInstanceAt(vs: seq<Bean>, t: string, i: int)
    requires 0 <= i < |vs| && InstanceOf(vs[i].cls, t)
    requires forall j :: 0 <= j < i ==> !InstanceOf(vs[j].cls, t)
    ensures FirstInstance(vs, t) == vs[i]
  {
    assert FirstInstanceIndex(vs, t) == i;
  }

  /** When exactly one bean is an instance of `t`, lookup by type returns that very bean, whatever the order. */
  lemma FirstInstanceUnique(vs: seq<Bean>, t: string, b: Bean)
    requires b in vs && InstanceOf(b.cls, t)
    requires forall v :: v in vs && InstanceOf(v.cls, t) ==> v == b
    ensures FirstInstance(vs, t) == b
  {
  }

  /** Whether wiring bean `b` throws: one of its own @Autowired fields cannot be assigned. */
  predicate BeanWiringFails(b: Bean)
  {
    FailIndex(b.cls.declaredFields) < |b.cls.declaredFields|
  }

  /** The index of the first bean whose wiring throws, or |vs| when none does. */
  function WiringStop(vs: seq<Bean>): (k: nat)
    ensures k <= |vs|
    ensures forall j :: 0 <= j < k ==> !BeanWiringFails(vs[j])
    ensures k < |vs| ==> BeanWiringFails(vs[k])
  {
    if vs == [] then 0
    else if BeanWiringFails(vs[0]) then 0
    else 1 + WiringStop(vs[1..])
  }

  /** Bean `i`, reached by wiring and not failing, lets wiring go on to the next bean. */
  lemma WiringStopAfter(vs: seq<Bean>, i: int)
    requires 0 <= i < |vs| && i <= WiringStop(vs) && !BeanWiringFails(vs[i])
    ensures i + 1 <= WiringStop(vs)
  {
  }

  /** Bean `i`, reached by wiring and failing, is where wiring stops. */
  lemma WiringStopAt(vs: seq<Bean>, i: int)
    requires 0 <= i < |vs| && i <= WiringStop(vs) && BeanWiringFails(vs[i])
    ensures WiringStop(vs) == i
  {
  }

  /**
   * The field pass over the fields `fs` declared by class `owner`, starting
   * from the field values `fields`: every @Autowired field gets the result of
   * lookup by its declared type over `vs`; the pass ends at the first field
   * whose assignment throws.
   */
  function Wire(fields: map<FieldRef, Bean?>, owner: string, fs: seq<FieldDecl>, vs: seq<Bean>): map<FieldRef, Bean?>
    decreases |fs|
  {
    if fs == [] then fields
    else if !fs[0].autowired then Wire(fields, owner, fs[1..], vs)
    else if !fs[0].settable then fields
    else Wire(fields[FieldRef(owner, fs[0].name) := FirstInstance(vs, fs[0].declaredType)], owner, fs[1..], vs)
  }

  /** The field pass at field `k`: a field without @Autowired is skipped. */
  lemma WireSkipAt(fields: map<FieldRef, Bean?>, owner: string, fs: seq<FieldDecl>, vs: seq<Bean>, k: int)
    requires 0 <= k < |fs| && !fs[k].autowired
    ensures Wire(fields, owner, fs[k..], vs) == Wire(fields, owner, fs[k + 1..], vs)
  {
    assert fs[k..][0] == fs[k] && fs[k..][1..] == fs[k + 1..];
  }

  /** The field pass at field `k`: an @Autowired field is assigned the lookup result for its declared type. */
  lemma WireSetAt(fields: map<FieldRef, Bean?>, owner: string, fs: seq<FieldDecl>, vs: seq<Bean>, k: int)
    requires 0 <= k < |fs| && fs[k].autowired && fs[k].settable
    ensures Wire(fields, owner, fs[k..], vs)
         == Wire(fields[FieldRef(owner, fs[k].name) := FirstInstance(vs, fs[k].declaredType)], owner, fs[k + 1..], vs)
  {
    assert fs[k..][0] == fs[k] && fs[k..][1..] == fs[k + 1..];
  }

  /** The field pass at field `k`: an assignment that throws ends it. */
  lemma WireFailAt(fields: map<FieldRef, Bean?>, owner: string, fs: seq<FieldDecl>, vs: seq<Bean>, k: int)
    requires 0 <= k < |fs| && WiringFails(fs[k])
    ensures Wire(fields, owner, fs[k..], vs) == fields
  {
    assert fs[k..][0] == fs[k];
  }

  /** Wiring changes no field other than the @Autowired fields the pass reaches in the owner's own declarations. */
  lemma {:induction false} WireKeepsOthers(fields: map<FieldRef, Bean?>, owner: string, fs: seq<FieldDecl>, vs: seq<Bean>, f: FieldRef)
    requires f.owner != owner || forall j :: 0 <= j < FailIndex(fs) && fs[j].name == f.name ==> !fs[j].autowired
    ensures FieldValue(Wire(fields, owner, fs, vs), f) == FieldValue(fields, f)
    decreases |fs|
  {
    if fs != [] && !WiringFails(fs[0]) {
      var fields' := if fs[0].autowired then fields[FieldRef(owner, fs[0].name) := FirstInstance(vs, fs[0].declaredType)] else fields;
      assert FieldValue(fields', f) == FieldValue(fields, f) by {
        if fs[0].autowired && f.owner == owner {
          assert fs[0].name != f.name;
        }
      }
      forall j | 0 <= j < FailIndex(fs[1..]) && fs[1..][j].name == f.name && f.owner == owner
        ensures !fs[1..][j].autowired
      {
        assert fs[1..][j] == fs[j + 1];
      }
      WireKeepsOthers(fields', owner, fs[1..], vs, f);
    }
  }

  /** Every @Autowired field the pass reaches holds exactly the result of lookup by its declared type. */
  lemma {:induction false} WireAssigns(fields: map<FieldRef, Bean?>, owner: string, fs: seq<FieldDecl>, vs: seq<Bean>, j: int)
    requires DistinctFieldNames(fs)
    requires 0 <= j < FailIndex(fs) && fs[j].autowired
    ensures FieldValue(Wire(fields, owner, fs, vs), FieldRef(owner, fs[j].name)) == FirstInstance(vs, fs[j].declaredType)
    decreases |fs|
  {
    var fields' := if fs[0].autowired then fields[FieldRef(owner, fs[0].name) := FirstInstance(vs, fs[0].declaredType)] else fields;
    var tail := fs[1..];
    if j == 0 {
      WireKeepsOthers(fields', owner, tail, vs, FieldRef(owner, fs[0].name));
    } else {
      assert tail[j - 1] == fs[j];
      assert DistinctFieldNames(tail) by {
        forall a, b | 0 <= a < b < |tail|
          ensures tail[a].name != tail[b].name
        {
          assert tail[a] == fs[a + 1] && tail[b] == fs[b + 1];
        }
      }
      WireAssigns(fields', owner, tail, vs, j - 1);
    }
  }
}
