# AppContext: a reflective dependency-injection container, in Dafny

`AppContext` (in `demo/src/main/java/com/example/demo/di3/Main.java`) is a
small container in the style of Spring. Its constructor runs two phases.

- **Component scan.** It visits every top-level class of the package. Each
  class carrying `@Component` is instantiated with its default constructor
  and stored in a `HashMap`. The key is the class's simple name with the
  first letter lower-cased (`SportCar` becomes `sportCar`).
- **Autowiring.** It visits every bean in the map's iteration order. Every
  field that the bean's own class declares with `@Autowired` gets the result
  of lookup by the field's declared type.

Afterwards, `getBean(String)` is a map lookup. `getBean(Class)` returns the
first bean, in iteration order, that is an instance of the class, or null.
Both phases sit inside `try { … } catch (Exception e) {}`, so the first
exception ends its phase silently and keeps what was done before it.

The model:

- `naming.dfy` (module `Naming`): the identity key. This is the simple name
  (the text after the last `.`), uncapitalized.
- `reflection.dfy` (module `Reflection`): what reflection tells the container,
  as values. A class is a `TypeDesc`: its name, the `@Component` marker,
  whether `newInstance()` succeeds, its superclass chain and its declared
  fields. A field is a `FieldDecl`: its name, its declared type, the
  `@Autowired` marker, and whether `Field.set` succeeds.
- `scan.dfy` (module `Scan`): the component scan as a function `Registry`
  of the visited classes. It states which class ends up under which key.
- `wiring.dfy` (module `Wiring`): beans as objects (`class Bean`) whose
  fields are a map from field to bean; absent means null. Lookup by type is
  `FirstInstance`. The field pass over one bean is `Wire`.
- `context.dfy` (module `Context`): `class AppContext`. Its fields are the
  bean map and the map's current iteration order. Its constructor, scan,
  autowiring and lookups are methods proved against the functions above.
- `demo.dfy` (module `Demo`): the classes `Car`, `SportCar`, `Truck`,
  `Engine` and `Door` of the same file, and the container built over them.

Behaviour of the code that the model keeps:

- Autowiring matches by declared type only, never by field name.
- A bean can be wired to itself when its own class matches the field's type.
- A field that no bean matches stays null; that is not an error.
- Only the fields the bean's own class declares are wired. Inherited
  `@Autowired` fields stay null: `getDeclaredFields` does not return them.

## Model

| member | source | states |
|---|---|---|
| Naming.Uncapitalize | demo/src/main/java/com/example/demo/di3/Main.java:96 | `StringUtils.uncapitalize`: the first character becomes its lower-case form, the rest is kept, and the empty name stays empty |
| Naming.ToLower | demo/src/main/java/com/example/demo/di3/Main.java:96 | An upper-case letter becomes its lower-case form; any other character is unchanged; the result is never upper case |
| Naming.UncapitalizeSpec | demo/src/main/java/com/example/demo/di3/Main.java:96 | Uncapitalizing keeps the length and every character after the first; the first becomes lower case; a name not starting with an upper-case letter (the empty name included) comes back unchanged |
| Naming.UncapitalizeCollision | demo/src/main/java/com/example/demo/di3/Main.java:96 | Two simple names give the same key exactly when they are equal or differ only in the case of their first letter |
| Naming.SimpleName | demo/src/main/java/com/example/demo/di3/Main.java:96 | `getSimpleName` of a top-level class: the characters after the last `.` of the qualified name, or all of them when there is none |
| Naming.LastDot | demo/src/main/java/com/example/demo/di3/Main.java:96 | The index of the last `.` of a qualified name, or -1; no `.` follows it |
| Naming.SimpleNameAfterLastDot | demo/src/main/java/com/example/demo/di3/Main.java:96 | The simple name is exactly the text after the last `.` |
| Naming.SimpleNameSpec | demo/src/main/java/com/example/demo/di3/Main.java:96 | The simple name contains no `.` and is a suffix of the qualified name |
| Naming.SimpleNameOfQualified | demo/src/main/java/com/example/demo/di3/Main.java:76-96 | A class declared as `s` in package `pkg` has simple name `s` |
| Reflection.InstanceOf | demo/src/main/java/com/example/demo/di3/Main.java:121 | `clazz.isInstance(obj)`: the type is `java.lang.Object`, the object's own class, or a class on its superclass chain |
| Reflection.FailIndex | demo/src/main/java/com/example/demo/di3/Main.java:49-53 | The first declared field whose `@Autowired` assignment throws; no field before it throws |
| Scan.Key | demo/src/main/java/com/example/demo/di3/Main.java:96 | The map key of a class: `uncapitalize(getSimpleName())`, that is `Uncapitalize(SimpleName(name))` |
| Scan.Register | demo/src/main/java/com/example/demo/di3/Main.java:79-106 | The scan loop, in class-path order, from a given map: a class without `@Component` is skipped; a marked class that can be instantiated is put under its key; the first marked class whose instantiation throws ends the loop, keeping the map as it is |
| Scan.Registry | demo/src/main/java/com/example/demo/di3/Main.java:61-106 | `doComponentScan` on the fresh empty map: `Register` from `map[]` |
| Scan.ScanStop | demo/src/main/java/com/example/demo/di3/Main.java:79-106 | The first marked class whose instantiation throws; no class before it throws |
| Scan.RegisterSkipAt | demo/src/main/java/com/example/demo/di3/Main.java:87-91 | A class without `@Component` changes nothing |
| Scan.RegisterPutAt | demo/src/main/java/com/example/demo/di3/Main.java:91-102 | A marked class that can be instantiated is put under its key, replacing any earlier entry |
| Scan.RegisterFailAt | demo/src/main/java/com/example/demo/di3/Main.java:102-106 | A marked class whose instantiation throws ends the scan with the map as it is |
| Scan.RegisterKeys | demo/src/main/java/com/example/demo/di3/Main.java:79-106 | A key is present after the loop exactly when it was present before or some marked class reached before any failure derives it |
| Scan.RegisterKeeps | demo/src/main/java/com/example/demo/di3/Main.java:79-106 | A key that no reached marked class derives keeps its earlier entry |
| Scan.RegisterLastWins | demo/src/main/java/com/example/demo/di3/Main.java:96-102 | When several reached marked classes derive one key, the last one scanned is stored under it |
| Scan.RegisterValues | demo/src/main/java/com/example/demo/di3/Main.java:79-106 | Every entry was there before, or is a reached marked class stored under its own key |
| Scan.RegisterStopsAtFailure | demo/src/main/java/com/example/demo/di3/Main.java:79-108 | Nothing from the failing class onward is registered, whatever classes follow it |
| Scan.RegistryKeys | demo/src/main/java/com/example/demo/di3/Main.java:79-106 | The keys of the map are exactly the keys of the marked classes reached before the first failure |
| Scan.RegistryValues | demo/src/main/java/com/example/demo/di3/Main.java:87-102 | Every entry holds a marked, instantiable class of the scan whose key is the entry's key |
| Scan.RegistryLastWins | demo/src/main/java/com/example/demo/di3/Main.java:96-102 | On a key collision the map holds the class scanned last |
| Scan.RegistryStopsAtFailure | demo/src/main/java/com/example/demo/di3/Main.java:61-108 | The map built by a scan that fails equals the map built from the classes before the failure; what follows the failure does not matter |
| Scan.ScanStopPermuted | demo/src/main/java/com/example/demo/di3/Main.java:79-106 | When no class of a scan throws on instantiation, no class of any rearrangement of it throws either |
| Scan.RegisteredPermuted | demo/src/main/java/com/example/demo/di3/Main.java:87-102 | A class registered under a key in one complete scan is registered under that key wherever a rearrangement puts it |
| Scan.RegistryOrderFree | demo/src/main/java/com/example/demo/di3/Main.java:79-106 | When no marked class throws and no two marked classes share a key, every rearrangement of the scanned classes registers the same map |
| Wiring.Bean.constructor | demo/src/main/java/com/example/demo/di3/Main.java:102 | A newly created instance has the given class and every field null |
| Wiring.FirstInstanceIndex | demo/src/main/java/com/example/demo/di3/Main.java:120-124 | The position of the first bean that is an instance of the type; no bean before it is one |
| Wiring.FirstInstance | demo/src/main/java/com/example/demo/di3/Main.java:119-125 | Lookup by type gives null exactly when no bean is an instance of the type; otherwise it gives one of the beans, and that bean is an instance |
| Wiring.FirstInstanceAt | demo/src/main/java/com/example/demo/di3/Main.java:120-123 | A bean that is an instance, with no instance before it, is the one lookup returns |
| Wiring.FirstInstanceUnique | demo/src/main/java/com/example/demo/di3/Main.java:119-125 | When exactly one bean is an instance of the type, lookup returns that bean, whatever the iteration order |
| Wiring.WiringStop | demo/src/main/java/com/example/demo/di3/Main.java:45-57 | The first bean whose wiring throws; no bean before it throws |
| Wiring.WiringStopAfter | demo/src/main/java/com/example/demo/di3/Main.java:46-55 | Wiring moves past a reached bean whose wiring does not throw |
| Wiring.WiringStopAt | demo/src/main/java/com/example/demo/di3/Main.java:45-57 | A reached bean whose wiring throws is where wiring stops |
| Wiring.Wire | demo/src/main/java/com/example/demo/di3/Main.java:49-53 | The inner loop over the declared fields, in order: a field without `@Autowired` is skipped; an `@Autowired` field is set to lookup by its declared type over all beans; the first assignment that throws ends the pass, keeping the fields as they are |
| Wiring.WireSkipAt | demo/src/main/java/com/example/demo/di3/Main.java:49-50 | A field without `@Autowired` is skipped |
| Wiring.WireSetAt | demo/src/main/java/com/example/demo/di3/Main.java:50-52 | An `@Autowired` field is assigned the lookup result for its declared type |
| Wiring.WireFailAt | demo/src/main/java/com/example/demo/di3/Main.java:52-57 | An assignment that throws ends the pass with the fields as they are |
| Wiring.WireKeepsOthers | demo/src/main/java/com/example/demo/di3/Main.java:49-53 | Wiring leaves unchanged every field other than the `@Autowired` fields of the bean's own class reached before a failure; inherited fields and unmarked fields are among them |
| Wiring.WireAssigns | demo/src/main/java/com/example/demo/di3/Main.java:50-52 | Every `@Autowired` field reached before a failure holds exactly the lookup result for its declared type over all beans |
| Context.ValuesIn | demo/src/main/java/com/example/demo/di3/Main.java:46 | The beans of the map listed in a key order: one per key, position by position |
| Context.IterationOrder | demo/src/main/java/com/example/demo/di3/Main.java:39 | Some order listing every key of the map exactly once; which order is left open |
| Context.AppContext.Values | demo/src/main/java/com/example/demo/di3/Main.java:46 | `map.values()`: one bean per key, in iteration order |
| Context.AppContext.ValuesDistinct | demo/src/main/java/com/example/demo/di3/Main.java:46 | No bean is listed twice |
| Context.AppContext.ValuesCover | demo/src/main/java/com/example/demo/di3/Main.java:120 | Every stored bean is listed |
| Context.AppContext.ValuesStored | demo/src/main/java/com/example/demo/di3/Main.java:120 | Every listed bean is stored under some key |
| Context.AppContext.Wired | demo/src/main/java/com/example/demo/di3/Main.java:38-58 | The state `doAutowired` leaves after the scan: each bean up to the one where wiring stopped holds `Wire` of its own declared fields from all-null; later beans stay all null |
| Context.AppContext.WiredField | demo/src/main/java/com/example/demo/di3/Main.java:38-58 | After construction, an `@Autowired` field of a bean that wiring reached, declared before any failing field, holds lookup by its declared type over all beans |
| Context.AppContext.constructor | demo/src/main/java/com/example/demo/di3/Main.java:38-42 | The map holds, by key, exactly the classes `Registry` gives for the scanned classes; every bean wiring reached holds what `Wire` gives its own fields from all-null; later beans stay all null |
| Context.AppContext.Put | demo/src/main/java/com/example/demo/di3/Main.java:102 | `map.put`: the map afterwards is the old map with the key bound to the new bean; replacing an existing key keeps the iteration order |
| Context.AppContext.DoComponentScan | demo/src/main/java/com/example/demo/di3/Main.java:60-110 | Starting from the empty map, the classes stored by key are exactly `Registry(scan)`; every bean is new and has all fields null |
| Context.AppContext.DoAutowired | demo/src/main/java/com/example/demo/di3/Main.java:43-58 | The map and its order are unchanged; each bean up to the first failing one gets `Wire` of its own fields over all beans; later beans are untouched |
| Context.AppContext.WireAll | demo/src/main/java/com/example/demo/di3/Main.java:45-57 | The outer loop: beans before and at the first failure are wired, the rest keep their fields |
| Context.AppContext.WireBean | demo/src/main/java/com/example/demo/di3/Main.java:49-54 | The inner loop: the bean's fields become `Wire` of its own declared fields; the result says whether an assignment threw |
| Context.AppContext.GetBean | demo/src/main/java/com/example/demo/di3/Main.java:113-116 | Lookup by key gives null exactly when the key is absent, and otherwise the very bean stored under it |
| Context.AppContext.GetBeanOfType | demo/src/main/java/com/example/demo/di3/Main.java:119-125 | Lookup by type returns `FirstInstance` over the beans in iteration order |
| Demo.KeyOfQualified | demo/src/main/java/com/example/demo/di3/Main.java:96 | The key of a class in the demo package is its uncapitalized simple name |
| Demo.KeyCar | demo/src/main/java/com/example/demo/di3/Main.java:19 | `Car` has key `car` |
| Demo.KeySportCar | demo/src/main/java/com/example/demo/di3/Main.java:30 | `SportCar` has key `sportCar` |
| Demo.KeyTruck | demo/src/main/java/com/example/demo/di3/Main.java:31 | `Truck` has key `truck` |
| Demo.KeyEngine | demo/src/main/java/com/example/demo/di3/Main.java:32 | `Engine` has key `engine` |
| Demo.KeyDoor | demo/src/main/java/com/example/demo/di3/Main.java:33 | `Door` has key `door` |
| Demo.DemoScanRegistry | demo/src/main/java/com/example/demo/di3/Main.java:19-35 | The scan of the package registers the five marked classes under their keys; `AppContext` and `Main` are not registered |
| Demo.DemoKeysDetermine | demo/src/main/java/com/example/demo/di3/Main.java:19-33 | Each marked class of the package is the class registered under its own key |
| Demo.DemoScanClean | demo/src/main/java/com/example/demo/di3/Main.java:19-35 | No class of the package throws on instantiation, and the five marked classes have five different keys |
| Demo.DemoAnyOrder | demo/src/main/java/com/example/demo/di3/Main.java:79-106 | Whatever order the class path lists the package in, the scan registers the same five classes |
| Demo.DemoInstances | demo/src/main/java/com/example/demo/di3/Main.java:19-33 | Among the registered classes, the instances of `Car` are Car, SportCar and Truck; only Engine is an `Engine`; none is a `Main`; no field assignment throws |
| Demo.DemoBeans | demo/src/main/java/com/example/demo/di3/Main.java:19-33 | In the container's map, a bean's class determines its key |
| Demo.CarWiring | demo/src/main/java/com/example/demo/di3/Main.java:19-22 | Wiring a `Car` sets `engine` to the lookup result for `Engine` and leaves the unmarked `door` null |
| Demo.DemoWired | demo/src/main/java/com/example/demo/di3/Main.java:38-42 | Every bean of the demo container has been wired |
| Demo.DemoCarFields | demo/src/main/java/com/example/demo/di3/Main.java:135-150 | In the demo container, `car.engine` is the very bean stored under `engine`, and `car.door` is null |
| Demo.DemoSubclassFields | demo/src/main/java/com/example/demo/di3/Main.java:30-31 | The `engine` field that `sportCar` and `truck` inherit from Car stays null |
| Demo.DemoLookups | demo/src/main/java/com/example/demo/di3/Main.java:119-125 | In the demo container, lookup by `Car` returns one of the three car beans, and lookup by `Main` returns null |
| Demo.DemoContainer | demo/src/main/java/com/example/demo/di3/Main.java:130-150 | The scenario of `main`, for any class-path order of the package: the demo container, its `car` wired to its `engine`, `door` null, no bean for `main` or `appContext`, and lookup by type as in `DemoLookups` |

## Left out

- Class-path discovery is not modelled: the class loader, Guava's `ClassPath`, `getTopLevelClasses` and `ClassInfo.load` (lines 68-82). The classes of the package are the parameter `scan`, in whatever order the class path yields them. When reading the class path throws, the map stays empty; that is the model with an empty `scan`.
- Reflection is replaced by descriptors. A `TypeDesc` stands for the annotations, `newInstance()` and `getDeclaredFields()`. Whether `newInstance()` or `Field.set` throws is given by the flags `instantiable` and `settable`, not derived from modifiers, constructors or access rules.
- Wiring.Bean.constructor: assumes that no field initialiser and no constructor body assigns a reference field, so every field of a new bean starts null. `newInstance()` (line 102) does run them, and a class such as `class X { Door door = new Door(); }` would start with a non-null field. `Context.AppContext.Wired` and `DoComponentScan` rest on the same assumption.
- Wiring.Bean.constructor: only instance fields are modelled, one `FieldRef` entry per bean. `getDeclaredFields()` (line 49) also returns static fields, and `Field.set` on a static field writes one slot shared by the whole class, which the model does not have.
- The exception types and messages are not modelled: every exception in a phase is caught and dropped, so only "it threw" matters. `Error`s (such as a class that fails to load) escape the `catch (Exception e)` and are not modelled.
- Naming.ToLower: maps only the ASCII letters `A`-`Z`, whereas `Character.toLowerCase` covers all of Unicode.
- Naming.SimpleName: class names containing `$` are not treated specially. Guava's `ClassInfo.getSimpleName` and Spring's `StringUtils.uncapitalize` are not part of this model; `Naming` follows their documented behaviour for top-level classes.
- Reflection.InstanceOf: `Class.isInstance` is modelled by the superclass chain and `java.lang.Object` only; interfaces and arrays are left out.
- `HashMap` hashing is not modelled. The iteration order is any order listing each key once. It is chosen again whenever a new key is added, since a put can rehash. Which bean lookup by type returns, when several match, therefore stays open, as in the code.
- The order of `getDeclaredFields()` is taken as the order of `declaredFields`; the JVM does not promise declaration order. It matters only for which fields are set before an assignment throws.
- `Main.main`'s printing and `Car.toString` (lines 24-27, 148-150) are left out; `Demo.DemoContainer` performs the lookups `main` makes. The casts such as `(Car)` at line 135 are left out.
- The two `getBean` overloads are `GetBean` (by key) and `GetBeanOfType` (by class name).
- Concurrency: the container is single-threaded and the model has none.
