# Routed property injection, modelled in Dafny

This project models the property injector of `src/utils/Routed.ts`. A component
class marks some of its fields with one of three markers (`RoutedMatch`,
`RoutedLocation`, `RoutedHistory`). Each marker appends a `{prop, type}`
descriptor to a process-wide registry that is keyed by class name. The class
wrapper `Routed` replaces the class's constructor. After the original
constructor has run, the wrapper checks the first constructor argument. If the
argument carries `match`, `location` and `history`, and the registry has an
entry for the class, the wrapper walks that entry in order. For each
descriptor it copies the routing value of the descriptor's kind into the
instance field the descriptor names.

Everything is in `routed.dfy`, in module `Routed`:

- `Kind`, `Descriptor`: the injection kinds and the `{prop, type}` descriptor.
- `Store`: the registry. It is a class whose `entries` map from class name to
  descriptor list is changed in place by `Register` and the three markers.
- `Arg<V>`: a constructor argument. It is either an opaque primitive or an
  object, seen as the map of property names the `in` operator finds on it.
  Routing values are an opaque type `V`.
- `IsRouteProps`: the type guard `instanceOfRouteProps`.
- `Injected`: the specification of the injection loop. A field named by some
  descriptor holds the value for the kind of the last descriptor naming it.
  All other fields keep their values. `LastKind` finds that last kind.
- `Construct`: the whole wrapping constructor as a function of the class's
  registry entry, the instance fields left by the original constructor, and
  the arguments.
- `Store.Instantiate`: the wrapping constructor as the source writes it. It
  runs an index loop that overwrites one field per descriptor, and it is
  proved equal to `Construct`.

A non-object first argument is not treated as "not routing props". The guard
applies the `in` operator to it (src/utils/Routed.ts:29), and `in` throws a
TypeError on `undefined`, `null` and other primitives. The model therefore
returns `Threw` for a primitive first argument, even when the class has no
registry entry.

## Model

| member | source | states |
|---|---|---|
| `Routed.IsRouteProps` | src/utils/Routed.ts:26-30 | the guard gives no verdict (the `in` operator throws) exactly when the argument is a primitive |
| `Routed.RoutePropsIffEveryKind` | src/utils/Routed.ts:26-30 | the guard holds if and only if the argument is an object that carries the field of every kind (`match`, `history`, `location`) |
| `Routed.MissingFieldIsNotRouteProps` | src/utils/Routed.ts:29 | an object that lacks any one of the three fields fails the guard |
| `Routed.LastKindNone` | src/utils/Routed.ts:53-67 | no descriptor of the list names field `f` if and only if the last-kind lookup finds nothing for `f` |
| `Routed.LastKindSome` | src/utils/Routed.ts:53-67 | when index `j` is the last descriptor naming `f`, the lookup gives that descriptor's kind |
| `Routed.LastKindSnoc` | src/utils/Routed.ts:53-67 | a descriptor appended at the end becomes the last one naming its field, and no lookup for another field changes |
| `Routed.NamedSnoc` | src/utils/Routed.ts:53-67 | appending a descriptor adds exactly its field to the set of named fields |
| `Routed.InjectedStep` | src/utils/Routed.ts:54-66 | applying descriptor `i` after the first `i` overwrites exactly the field it names, with the routing value of its kind |
| `Routed.Construct` | src/utils/Routed.ts:40-71 | no arguments, a first argument that fails the guard, or a class with no registry entry leave the fields unchanged; a primitive first argument throws, and nothing else does; injection never removes a field |
| `Routed.ConstructNamed` | src/utils/Routed.ts:53-67 | after injection, a field named by some descriptor holds the value for the kind of the last descriptor naming it (last write wins) |
| `Routed.ConstructUnnamed` | src/utils/Routed.ts:53-67 | after injection, a field that no descriptor names is unchanged in presence and value |
| `Routed.ReRegisteredLastWins` | src/utils/Routed.ts:53-67 | a property registered twice in a row with kinds `k1` then `k2`, and not named by any later descriptor, receives the value for `k2` |
| `Routed.EmptyEntryIsNoEntry` | src/utils/Routed.ts:50-53 | an entry with no descriptors injects nothing, exactly like a missing entry, so the truthiness test on the entry needs no emptiness check |
| `Routed.PageExample` | src/utils/Routed.ts:44-67 | a class marking `currentMatch` as match and `nav` as history gets exactly those two values from routing props, and keeps its fields when built from `{}` |
| `Routed.Store.constructor` | src/utils/Routed.ts:23 | the registry starts empty |
| `Routed.Store.Register` | src/utils/Routed.ts:76-89 | creates an empty entry for a new class name, then appends exactly one `{prop, kind}` descriptor at the end; earlier descriptors stay in place and in order; every other class's entry is unchanged; keys keep having non-empty lists |
| `Routed.Store.RoutedMatch` | src/utils/Routed.ts:92-94 | registers the property with kind match |
| `Routed.Store.RoutedLocation` | src/utils/Routed.ts:97-99 | registers the property with kind location |
| `Routed.Store.RoutedHistory` | src/utils/Routed.ts:102-104 | registers the property with kind history |
| `Routed.Store.Instantiate` | src/utils/Routed.ts:44-67 | the index loop over the class's descriptors yields exactly `Construct` of that class's own entry; it only reads the registry, so other classes' descriptors cannot affect the instance |

## Left out

- The decorator and class-extension machinery (`return class extends constructor`) and the reflection on `constructor.name`. The class name is a plain string parameter.
- The call to the original constructor, `super(args)`, which runs user code and passes the whole argument array. Its effect is the arbitrary initial field map `initial`. The model assumes that constructor leaves a fresh, plain, writable instance. It must not return another object (for example the routing props themselves, which makes later reads see earlier writes), freeze the instance, or define accessors on it; any of these changes what the loop at src/utils/Routed.ts:53-67 reads or makes its assignments throw.
- The react-router and history types. `Match`, `History` and `Location` values are one opaque type `V`.
- Prototype inheritance on the registry object. The registry is a map with no inherited keys. A class named like an `Object.prototype` member (`constructor`, `toString`, `hasOwnProperty`, `__proto__`) behaves differently in JavaScript and is not modelled.
- Getters, setters and proxies on the argument or the instance. Reading `routeProps.match` and assigning `this[prop]` are plain map reads and writes.
- Store.Instantiate: the instance is a field map returned as a value, not an object updated in place. Under the assumption above (a fresh, plain instance distinct from the routing props), no write can be seen through another reference; aliasing between the instance and the argument is not modelled.
- Collisions between same-named classes in different modules. These are a naming concern, and keying by string already captures the behaviour.
