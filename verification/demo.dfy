/**
 * The demo package: Car (an @Autowired Engine field and a plain Door field),
 * SportCar and Truck extending Car, Engine and Door, all carrying @Component,
 * next to the unmarked AppContext and Main.
 */
module Demo {
  import opened Naming
  import opened Reflection
  import opened Scan
  import opened Wiring
  import opened Context

  const Package: string := "com.example.demo.di3"

  function Qualified(simple: string): string
  {
    Package + "." + simple
  }

  const EngineField: FieldDecl := FieldDecl("engine", Qualified("Engine"), true, true)
  const DoorField: FieldDecl := FieldDecl("door", Qualified("Door"), false, true)

  const CarClass: TypeDesc := TypeDesc(Qualified("Car"), true, true, None, [EngineField, DoorField])
  const SportCarClass: TypeDesc := TypeDesc(Qualified("SportCar"), true, true, Some(CarClass), [])
  const TruckClass: TypeDesc := TypeDesc(Qualified("Truck"), true, true, Some(CarClass), [])
  const EngineClass: TypeDesc := TypeDesc(Qualified("Engine"), true, true, None, [])
  const DoorClass: TypeDesc := TypeDesc(Qualified("Door"), true, true, None, [])
  const AppContextClass: TypeDesc :=
    TypeDesc(Qualified("AppContext"), false, true, None, [FieldDecl("map", "java.util.Map", false, true)])
  const MainClass: TypeDesc := TypeDesc(Qualified("Main"), false, true, None, [])

  /** The car's engine and door fields, as every instance of Car or of a subclass holds them. */
  const CarEngine: FieldRef := FieldRef(Qualified("Car"), "engine")
  const CarDoor: FieldRef := FieldRef(Qualified("Car"), "door")

  /** The top-level classes of the package, in one possible class-path order. */
  const DemoScan: seq<TypeDesc> := [AppContextClass, CarClass, DoorClass, EngineClass, MainClass, SportCarClass, TruckClass]

  const DemoRegistry: map<string, TypeDesc> :=
    map["car" := CarClass, "door" := DoorClass, "engine" := EngineClass, "sportCar" := SportCarClass, "truck" := TruckClass]

  lemma DemoRegistryEntries()
    ensures DemoRegistry.Keys == {"car", "door", "engine", "sportCar", "truck"}
    ensures DemoRegistry["car"] == CarClass && DemoRegistry["engine"] == EngineClass
    ensures DemoRegistry["sportCar"] == SportCarClass && DemoRegistry["truck"] == TruckClass
    ensures "main" !in DemoRegistry && "appContext" !in DemoRegistry
  {
  }

  /** Qualified names of distinct simple names are distinct. */
  lemma QualifiedInjective(a: string, b: string)
    ensures Qualified(a) == Qualified(b) ==> a == b
  {
    assert Qualified(a)[|Package| + 1..] == a;
    assert Qualified(b)[|Package| + 1..] == b;
  }

  lemma KeyOfQualified(c: TypeDesc, simple: string)
    requires c.name == Qualified(simple) && '.' !in simple
    ensures Key(c) == Uncapitalize(simple)
  {
    SimpleNameOfQualified(Package, simple);
  }

  lemma KeyCar() ensures Key(CarClass) == "car" { KeyOfQualified(CarClass, "Car"); }
  lemma KeySportCar() ensures Key(SportCarClass) == "sportCar" { KeyOfQualified(SportCarClass, "SportCar"); }
  lemma KeyTruck() ensures Key(TruckClass) == "truck" { KeyOfQualified(TruckClass, "Truck"); }
  lemma KeyEngine() ensures Key(EngineClass) == "engine" { KeyOfQualified(EngineClass, "Engine"); }
  lemma KeyDoor() ensures Key(DoorClass) == "door" { KeyOfQualified(DoorClass, "Door"); }

  /** The scan of the demo package registers the five marked classes under their keys, and neither Main nor AppContext. */
  lemma DemoScanRegistry()
    ensures Registry(DemoScan) == DemoRegistry
  {
    KeyCar();
    KeySportCar();
    KeyTruck();
    KeyEngine();
    KeyDoor();
    var s := DemoScan;
    RegisterSkipAt(map[], s, 0);
    assert s[0..] == s;
    var m1 := map["car" := CarClass];
    RegisterPutAt(map[], s, 1);
    var m2 := m1["door" := DoorClass];
    RegisterPutAt(m1, s, 2);
    var m3 := m2["engine" := EngineClass];
    RegisterPutAt(m2, s, 3);
    RegisterSkipAt(m3, s, 4);
    var m4 := m3["sportCar" := SportCarClass];
    RegisterPutAt(m3, s, 5);
    var m5 := m4["truck" := TruckClass];
    RegisterPutAt(m4, s, 6);
    assert s[7..] == [];
    assert m5 == DemoRegistry;
  }

  /** Each marked class of the package is the one registered under its own key. */
  lemma DemoKeysDetermine(i: int)
    requires 0 <= i < |DemoScan| && DemoScan[i].hasComponent
    ensures Key(DemoScan[i]) in DemoRegistry && DemoRegistry[Key(DemoScan[i])] == DemoScan[i]
  {
    if i == 1 { KeyCar(); }
    else if i == 2 { KeyDoor(); }
    else if i == 3 { KeyEngine(); }
    else if i == 5 { KeySportCar(); }
    else { KeyTruck(); }
  }

  /** Every class of the package can be instantiated, and no two marked ones share a key. */
  lemma DemoScanClean()
    ensures ScanStop(DemoScan) == |DemoScan|
    ensures forall i, j ::
      0 <= i < |DemoScan| && 0 <= j < |DemoScan| && DemoScan[i].hasComponent && DemoScan[j].hasComponent && Key(DemoScan[i]) == Key(DemoScan[j])
      ==> DemoScan[i] == DemoScan[j]
  {
    var s := DemoScan;
    assert ScanStop(s[6..]) == 1;
    assert ScanStop(s[3..]) == 4;
    forall i, j | 0 <= i < |s| && 0 <= j < |s| && s[i].hasComponent && s[j].hasComponent && Key(s[i]) == Key(s[j])
      ensures s[i] == s[j]
    {
      DemoKeysDetermine(i);
      DemoKeysDetermine(j);
    }
  }

  /** The class path may list the demo package in any order: every order registers the same five beans. */
  lemma DemoAnyOrder(scan: seq<TypeDesc>)
    requires multiset(scan) == multiset(DemoScan)
    ensures Registry(scan) == DemoRegistry
  {
    DemoScanRegistry();
    DemoScanClean();
    RegistryOrderFree(DemoScan, scan);
  }

  /** The five registered demo classes have five different names. */
  lemma DemoNamesDistinct()
    ensures forall k, k' :: k in DemoRegistry && k' in DemoRegistry && k != k' ==> DemoRegistry[k].name != DemoRegistry[k'].name
  {
    QualifiedInjective("Car", "SportCar");
    QualifiedInjective("Car", "Truck");
    QualifiedInjective("Car", "Engine");
    QualifiedInjective("Car", "Door");
    QualifiedInjective("SportCar", "Truck");
    QualifiedInjective("SportCar", "Engine");
    QualifiedInjective("SportCar", "Door");
    QualifiedInjective("Truck", "Engine");
    QualifiedInjective("Truck", "Door");
    QualifiedInjective("Engine", "Door");
  }

  /** Which registered demo classes are instances of Car, of Engine and of Main, and that none of them fails to wire. */
  lemma DemoInstances(c: TypeDesc)
    requires c in DemoRegistry.Values
    ensures InstanceOf(c, Qualified("Car")) <==> c == CarClass || c == SportCarClass || c == TruckClass
    ensures InstanceOf(c, Qualified("Engine")) <==> c == EngineClass
    ensures !InstanceOf(c, Qualified("Main"))
    ensures FailIndex(c.declaredFields) == |c.declaredFields|
  {
    assert FailIndex(CarClass.declaredFields) == 2;
    QualifiedInjective("Main", "Car");
    QualifiedInjective("Main", "SportCar");
    QualifiedInjective("Main", "Truck");
    QualifiedInjective("Main", "Engine");
    QualifiedInjective("Main", "Door");
    QualifiedInjective("Engine", "Car");
    QualifiedInjective("Engine", "SportCar");
    QualifiedInjective("Engine", "Truck");
    QualifiedInjective("Engine", "Door");
    QualifiedInjective("Car", "SportCar");
    QualifiedInjective("Car", "Truck");
    QualifiedInjective("Car", "Engine");
    QualifiedInjective("Car", "Door");
  }

  /** In a map built by the demo scan, a bean's class tells which key it is stored under. */
  lemma DemoBeans(beans: map<string, Bean>, vs: seq<Bean>)
    requires ClassesOf(beans) == DemoRegistry && beans.Keys == DemoRegistry.Keys
    requires forall v :: v in vs ==> v in beans.Values
    ensures forall v :: v in vs ==> v.cls in DemoRegistry.Values && !BeanWiringFails(v)
    ensures forall v :: v in vs && InstanceOf(v.cls, Qualified("Engine")) ==> v == beans["engine"]
    ensures forall v :: v in vs && InstanceOf(v.cls, Qualified("Car")) ==> v == beans["car"] || v == beans["sportCar"] || v == beans["truck"]
    ensures forall v :: v in vs ==> !InstanceOf(v.cls, Qualified("Main"))
  {
    DemoNamesDistinct();
    forall v | v in vs
      ensures v.cls in DemoRegistry.Values && !BeanWiringFails(v)
      ensures InstanceOf(v.cls, Qualified("Engine")) ==> v == beans["engine"]
      ensures InstanceOf(v.cls, Qualified("Car")) ==> v == beans["car"] || v == beans["sportCar"] || v == beans["truck"]
      ensures !InstanceOf(v.cls, Qualified("Main"))
    {
      var k :| k in beans && beans[k] == v;
      assert v.cls == DemoRegistry[k];
      DemoInstances(v.cls);
    }
  }

  /** Car's @Autowired engine field gets the lookup result for Engine; its unmarked door field stays null. */
  lemma CarWiring(vs: seq<Bean>)
    ensures FieldValue(Wire(map[], CarClass.name, CarClass.declaredFields, vs), CarEngine) == FirstInstance(vs, Qualified("Engine"))
    ensures FieldValue(Wire(map[], CarClass.name, CarClass.declaredFields, vs), CarDoor) == null
  {
    assert FailIndex(CarClass.declaredFields) == 2;
    WireAssigns(map[], CarClass.name, CarClass.declaredFields, vs, 0);
    WireKeepsOthers(map[], CarClass.name, CarClass.declaredFields, vs, CarDoor);
  }

  /** A bean of the container built over the demo package holds the fields wiring its class gives it. */
  lemma DemoWired(ctx: AppContext, k: string)
    requires ctx.Valid() && ctx.Wired() && ClassesOf(ctx.beans) == DemoRegistry && k in ctx.beans
    ensures ctx.beans[k].fields == Wire(map[], ctx.beans[k].cls.name, ctx.beans[k].cls.declaredFields, ctx.Values())
  {
    var vs := ctx.Values();
    ctx.ValuesStored();
    DemoBeans(ctx.beans, vs);
    assert WiringStop(vs) == |vs|;
    ctx.ValuesCover(k);
    var i :| 0 <= i < |vs| && vs[i] == ctx.beans[k];
  }

  /** Car's engine field holds the engine bean and its door field stays null. */
  lemma DemoCarFields(ctx: AppContext)
    requires ctx.Valid() && ctx.Wired() && ClassesOf(ctx.beans) == DemoRegistry
    ensures "car" in ctx.beans && "engine" in ctx.beans
    ensures ctx.beans["car"].Get(CarEngine) == ctx.beans["engine"]
    ensures ctx.beans["car"].Get(CarDoor) == null
  {
    DemoRegistryEntries();
    assert ctx.beans.Keys == ClassesOf(ctx.beans).Keys;
    var vs := ctx.Values();
    var car, engine := ctx.beans["car"], ctx.beans["engine"];
    assert car.cls == CarClass && engine.cls == EngineClass;
    DemoWired(ctx, "car");
    CarWiring(vs);
    ctx.ValuesStored();
    DemoBeans(ctx.beans, vs);
    DemoInstances(EngineClass);
    ctx.ValuesCover("engine");
    FirstInstanceUnique(vs, Qualified("Engine"), engine);
  }

  /** SportCar and Truck declare no fields of their own, so the engine field they inherit from Car stays null. */
  lemma DemoSubclassFields(ctx: AppContext)
    requires ctx.Valid() && ctx.Wired() && ClassesOf(ctx.beans) == DemoRegistry
    ensures "sportCar" in ctx.beans && "truck" in ctx.beans
    ensures ctx.beans["sportCar"].Get(CarEngine) == null && ctx.beans["truck"].Get(CarEngine) == null
  {
    DemoRegistryEntries();
    assert ctx.beans.Keys == ClassesOf(ctx.beans).Keys;
    assert ctx.beans["sportCar"].cls == SportCarClass && ctx.beans["truck"].cls == TruckClass;
    DemoWired(ctx, "sportCar");
    DemoWired(ctx, "truck");
  }

  /** Lookup by Car finds one of the three car beans; lookup by Main finds nothing. */
  lemma DemoLookups(ctx: AppContext)
    requires ctx.Valid() && ClassesOf(ctx.beans) == DemoRegistry
    ensures "car" in ctx.beans && "sportCar" in ctx.beans && "truck" in ctx.beans
    ensures var r := FirstInstance(ctx.Values(), Qualified("Car"));
      r != null && (r == ctx.beans["car"] || r == ctx.beans["sportCar"] || r == ctx.beans["truck"])
    ensures FirstInstance(ctx.Values(), Qualified("Main")) == null
  {
    DemoRegistryEntries();
    assert ctx.beans.Keys == ClassesOf(ctx.beans).Keys;
    var vs := ctx.Values();
    ctx.ValuesStored();
    DemoBeans(ctx.beans, vs);
    DemoInstances(CarClass);
    ctx.ValuesCover("car");
  }

  /**
   * The container built over the demo package: `car.engine` holds the engine
   * bean, `car.door` stays null, the engine field SportCar and Truck inherit
   * stays null, Main and AppContext are not beans, and lookup by Car returns
   * one of the three car beans, whatever order the class path lists the
   * package in.
   */
  method DemoContainer(scan: seq<TypeDesc>) returns (ctx: AppContext, byCar: Bean?, byMain: Bean?)
    requires multiset(scan) == multiset(DemoScan)
    ensures ctx.Valid() && ctx.beans.Keys == DemoRegistry.Keys
    ensures ctx.GetBean("car") != null && ctx.GetBean("engine") != null
    ensures ctx.GetBean("car").Get(CarEngine) == ctx.GetBean("engine")
    ensures ctx.GetBean("car").Get(CarDoor) == null
    ensures ctx.GetBean("sportCar") != null && ctx.GetBean("sportCar").Get(CarEngine) == null
    ensures ctx.GetBean("truck") != null && ctx.GetBean("truck").Get(CarEngine) == null
    ensures ctx.GetBean("main") == null && ctx.GetBean("appContext") == null
    ensures byCar != null && (byCar == ctx.GetBean("car") || byCar == ctx.GetBean("sportCar") || byCar == ctx.GetBean("truck"))
    ensures byMain == null
  {
    DemoAnyOrder(scan);
    ctx := new AppContext(scan);
    DemoRegistryEntries();
    assert ctx.beans.Keys == ClassesOf(ctx.beans).Keys;
    DemoCarFields(ctx);
    DemoSubclassFields(ctx);
    DemoLookups(ctx);
    byCar := ctx.GetBeanOfType(Qualified("Car"));
    byMain := ctx.GetBeanOfType(Qualified("Main"));
  }
}
