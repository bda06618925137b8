/*
 * Routed property injection.
 *
 * A process-wide registry maps a component's class name to the ordered list of
 * properties that were marked for injection, each with the kind of routing value
 * it receives (match, history or location). Three property markers fill the
 * registry at class-definition time; the class wrapper reads it at construction
 * time and copies the routing values of the first constructor argument onto the
 * instance fields the registry names, in registration order.
 */
module Routed {

  datatype Option<T> = None | Some(value: T)

  /** The three routing values that can be injected. */
  datatype Kind = Match | History | Location

  /** One marked property: inject the routing value of `kind` into field `prop`. */
  datatype Descriptor = Descriptor(prop: string, kind: Kind)

  /** Name of the field of the routing props that carries the value of kind `k`. */
  function FieldOf(k: Kind): string
  {
    match k
    case Match => "match"
    case History => "history"
    case Location => "location"
  }

  /**
   * A constructor argument. A primitive (undefined, null, a number, a string, ...)
   * is opaque; an object is seen through the property names the `in` operator
   * finds on it, each with its value.
   */
  datatype Arg<V> = Primitive | Object(props: map<string, V>)

  /** Result of constructing an instance of a wrapped class: its fields, or a thrown TypeError. */
  datatype Outcome<V> = Threw | Built(fields: map<string, V>)

  // ---------------------------------------------------------------------------
  // Detection
  // ---------------------------------------------------------------------------

  /**
   * The type guard: the argument counts as routing props when `match`, `location`
   * and `history` are all `in` it. The `in` operator throws on a primitive, so the
   * guard gives no verdict there (None).
   */
  function IsRouteProps<V>(x: Arg<V>): (r: Option<bool>)
    ensures r.None? <==> x.Primitive?
  {
    match x
    case Primitive => None
    case Object(props) => Some("match" in props && "location" in props && "history" in props)
  }

  /** Every kind's value can be read from `props`. */
  ghost predicate HasEveryKind<V>(props: map<string, V>)
  {
    forall k: Kind :: FieldOf(k) in props
  }

  /** The guard holds exactly when the argument is an object carrying a value for every kind. */
  lemma RoutePropsIffEveryKind<V>(x: Arg<V>)
    ensures IsRouteProps(x) == Some(true) <==> x.Object? && HasEveryKind(x.props)
  {
    if x.Object? && HasEveryKind(x.props) {
      assert FieldOf(Match) in x.props && FieldOf(History) in x.props && FieldOf(Location) in x.props;
    }
  }

  /** An object that lacks the field of any one kind is not routing props. */
  lemma MissingFieldIsNotRouteProps<V>(x: Arg<V>, k: Kind)
    requires x.Object? && FieldOf(k) !in x.props
    ensures IsRouteProps(x) == Some(false)
  {
  }

  // ---------------------------------------------------------------------------
  // Specification of injection
  // ---------------------------------------------------------------------------

  /** The kind of the last descriptor of `ds` that names field `f`, if any. */
  function LastKind(ds: seq<Descriptor>, f: string): Option<Kind>
  {
    if ds == [] then None
    else if ds[|ds| - 1].prop == f then Some(ds[|ds| - 1].kind)
    else LastKind(ds[..|ds| - 1], f)
  }

  /** Field names that some descriptor of `ds` names. */
  function Named(ds: seq<Descriptor>): set<string>
  {
    set d | d in ds :: d.prop
  }

  /**
   * The fields of an instance after the descriptors `ds` have been applied to it:
   * a field some descriptor names holds the routing value of the kind of the last
   * descriptor naming it; every other field is as it was.
   */
  function Injected<V>(fields: map<string, V>, ds: seq<Descriptor>, props: map<string, V>): map<string, V>
    requires HasEveryKind(props)
  {
    fields + map f | f in Named(ds) && LastKind(ds, f).Some? :: props[FieldOf(LastKind(ds, f).value)]
  }

  /** No descriptor names `f` exactly when LastKind finds none. */
  lemma {:induction false} LastKindNone(ds: seq<Descriptor>, f: string)
    ensures LastKind(ds, f).None? <==> forall j :: 0 <= j < |ds| ==> ds[j].prop != f
  {
    if ds != [] {
      var init := ds[..|ds| - 1];
      LastKindNone(init, f);
      assert forall j :: 0 <= j < |init| ==> init[j] == ds[j];
    }
  }

  /** If `j` is the last index whose descriptor names `f`, LastKind gives that descriptor's kind. */
  lemma {:induction false} LastKindSome(ds: seq<Descriptor>, f: string, j: int)
    requires 0 <= j < |ds| && ds[j].prop == f
    requires forall j' :: j < j' < |ds| ==> ds[j'].prop != f
    ensures LastKind(ds, f) == Some(ds[j].kind)
  {
    if j < |ds| - 1 {
      var init := ds[..|ds| - 1];
      assert init[j] == ds[j];
      LastKindSome(init, f, j);
    }
  }

  /** Appending descriptor `d` makes it the last one naming `d.prop`, and changes no other lookup. */
  lemma LastKindSnoc(t: seq<Descriptor>, d: Descriptor, f: string)
    ensures LastKind(t + [d], f) == if d.prop == f then Some(d.kind) else LastKind(t, f)
  {
  }

  /** Appending descriptor `d` adds exactly `d.prop` to the named fields. */
  lemma NamedSnoc(t: seq<Descriptor>, d: Descriptor)
    ensures Named(t + [d]) == Named(t) + {d.prop}
  {
  }

  /** Applying one more descriptor overwrites the field it names and nothing else. */
  lemma InjectedStep<V>(fields: map<string, V>, ds: seq<Descriptor>, props: map<string, V>, i: int)
    requires HasEveryKind(props)
    requires 0 <= i < |ds|
    ensures Injected(fields, ds[..i + 1], props)
         == Injected(fields, ds[..i], props)[ds[i].prop := props[FieldOf(ds[i].kind)]]
  {
    var t, d := ds[..i], ds[i];
    assert ds[..i + 1] == t + [d];
    NamedSnoc(t, d);
    var a := Injected(fields, t + [d], props);
    var b := Injected(fields, t, props)[d.prop := props[FieldOf(d.kind)]];
    forall f
      ensures (f in a <==> f in b) && (f in a ==> a[f] == b[f])
    {
      LastKindSnoc(t, d, f);
    }
  }

  // ---------------------------------------------------------------------------
  // Construction of a wrapped class
  // ---------------------------------------------------------------------------

  /**
   * What the wrapping constructor does, given the registry entry of its class
   * (None when the class has none), the fields the original constructor left on
   * the instance, and the constructor's arguments.
   */
  function Construct<V>(entry: Option<seq<Descriptor>>, initial: map<string, V>, args: seq<Arg<V>>): (r: Outcome<V>)
    ensures args == [] ==> r == Built(initial)
    ensures args != [] ==> (r.Threw? <==> args[0].Primitive?)
    ensures args != [] && IsRouteProps(args[0]) == Some(false) ==> r == Built(initial)
    ensures entry.None? && r.Built? ==> r == Built(initial)
    ensures r.Built? ==> initial.Keys <= r.fields.Keys
  {
    if args == [] then Built(initial)
    else
      match IsRouteProps(args[0])
      case None => Threw
      case Some(isRouteProps) =>
        if isRouteProps && entry.Some? then
          RoutePropsIffEveryKind(args[0]);
          Built(Injected(initial, entry.value, args[0].props))
        else Built(initial)
  }

  /**
   * Last write wins: after injection from routing props, a field named by some
   * descriptor holds the routing value of the kind of the last descriptor naming it.
   */
  lemma ConstructNamed<V>(ds: seq<Descriptor>, initial: map<string, V>, args: seq<Arg<V>>, j: int)
    requires args != [] && IsRouteProps(args[0]) == Some(true)
    requires 0 <= j < |ds|
    requires forall j' :: j < j' < |ds| ==> ds[j'].prop != ds[j].prop
    ensures Construct(Some(ds), initial, args).Built?
    ensures ds[j].prop in Construct(Some(ds), initial, args).fields
    ensures Construct(Some(ds), initial, args).fields[ds[j].prop] == args[0].props[FieldOf(ds[j].kind)]
  {
    RoutePropsIffEveryKind(args[0]);
    LastKindSome(ds, ds[j].prop, j);
    assert ds[j] in ds;
  }

  /** Nothing else changes: a field no descriptor names keeps its presence and its value. */
  lemma ConstructUnnamed<V>(ds: seq<Descriptor>, initial: map<string, V>, args: seq<Arg<V>>, f: string)
    requires args != [] && args[0].Object?
    requires forall j :: 0 <= j < |ds| ==> ds[j].prop != f
    ensures Construct(Some(ds), initial, args).Built?
    ensures f in Construct(Some(ds), initial, args).fields <==> f in initial
    ensures f in initial ==> Construct(Some(ds), initial, args).fields[f] == initial[f]
  {
  }

  /**
   * Registering the same property twice: injection leaves the value of the second
   * registration's kind in it, whatever the first one was, as long as no later
   * descriptor names the property.
   */
  lemma ReRegisteredLastWins<V>(ds: seq<Descriptor>, p: string, k1: Kind, k2: Kind, rest: seq<Descriptor>,
                                initial: map<string, V>, args: seq<Arg<V>>)
    requires args != [] && IsRouteProps(args[0]) == Some(true)
    requires forall j :: 0 <= j < |rest| ==> rest[j].prop != p
    ensures Construct(Some(ds + [Descriptor(p, k1), Descriptor(p, k2)] + rest), initial, args).Built?
    ensures p in Construct(Some(ds + [Descriptor(p, k1), Descriptor(p, k2)] + rest), initial, args).fields
    ensures Construct(Some(ds + [Descriptor(p, k1), Descriptor(p, k2)] + rest), initial, args).fields[p]
         == args[0].props[FieldOf(k2)]
  {
    var e := ds + [Descriptor(p, k1), Descriptor(p, k2)] + rest;
    var j := |ds| + 1;
    forall j' | j < j' < |e|
      ensures e[j'].prop != e[j].prop
    {
      assert e[j'] == rest[j' - j - 1];
    }
    ConstructNamed(e, initial, args, j);
  }

  /** A registry entry with no descriptors injects nothing, exactly like a missing entry. */
  lemma EmptyEntryIsNoEntry<V>(initial: map<string, V>, args: seq<Arg<V>>)
    ensures Construct(Some([]), initial, args) == Construct(None, initial, args)
  {
  }

  /**
   * A class `Page` marks `currentMatch` as match and `nav` as history. Built with
   * routing props it gets exactly those two values; built with an object lacking
   * them it keeps its fields.
   */
  lemma PageExample<V>(m1: V, l1: V, h1: V)
    ensures Construct(Some([Descriptor("currentMatch", Match), Descriptor("nav", History)]), map[],
                      [Object(map["match" := m1, "location" := l1, "history" := h1])])
         == Built(map["currentMatch" := m1, "nav" := h1])
    ensures Construct<V>(Some([Descriptor("currentMatch", Match), Descriptor("nav", History)]), map[],
                         [Object(map[])])
         == Built(map[])
  {
  }

  /** Registry entry of class `c` in `entries`, or the empty list when it has none. */
  function EntryOf(entries: map<string, seq<Descriptor>>, c: string): seq<Descriptor>
  {
    if c in entries then entries[c] else []
  }

  // ---------------------------------------------------------------------------
  // The registry
  // ---------------------------------------------------------------------------

  /** The process-wide registry: class name to its descriptors, in registration order. */
  class Store {
    var entries: map<string, seq<Descriptor>>

    /**
     * A class name is a key only once some property has been marked for it. No
     * operation relies on it: an empty list is truthy, and by EmptyEntryIsNoEntry
     * it would inject nothing anyway.
     */
    ghost predicate Valid()
      reads this
    {
      forall c :: c in entries ==> entries[c] != []
    }

    /** The registry starts empty. */
    constructor ()
      ensures Valid() && entries == map[]
    {
      entries := map[];
    }

    /**
     * Registers field `prop` of class `className` for injection of kind `kind`:
     * creates the class's entry when it is missing, then appends one descriptor.
     */
    method Register(className: string, prop: string, kind: Kind)
      requires Valid()
      modifies this
      ensures Valid()
      ensures entries == old(entries)[className := EntryOf(old(entries), className) + [Descriptor(prop, kind)]]
      ensures className in entries && |entries[className]| == |EntryOf(old(entries), className)| + 1
      ensures entries[className][..|entries[className]| - 1] == EntryOf(old(entries), className)
      ensures entries[className][|entries[className]| - 1] == Descriptor(prop, kind)
      ensures className !in old(entries) ==> entries[className] == [Descriptor(prop, kind)]
      ensures forall c :: c != className ==> EntryOf(entries, c) == EntryOf(old(entries), c)
    {
      if className !in entries {
        entries := entries[className := []];
      }
      entries := entries[className := entries[className] + [Descriptor(prop, kind)]];
    }

    /** Marker for a field that receives the route match. */
    method RoutedMatch(className: string, prop: string)
      requires Valid()
      modifies this
      ensures Valid()
      ensures entries == old(entries)[className := EntryOf(old(entries), className) + [Descriptor(prop, Match)]]
    {
      Register(className, prop, Match);
    }

    /** Marker for a field that receives the current location. */
    method RoutedLocation(className: string, prop: string)
      requires Valid()
      modifies this
      ensures Valid()
      ensures entries == old(entries)[className := EntryOf(old(entries), className) + [Descriptor(prop, Location)]]
    {
      Register(className, prop, Location);
    }

    /** Marker for a field that receives the navigation history. */
    method RoutedHistory(className: string, prop: string)
      requires Valid()
      modifies this
      ensures Valid()
      ensures entries == old(entries)[className := EntryOf(old(entries), className) + [Descriptor(prop, History)]]
    {
      Register(className, prop, History);
    }

    /**
     * The wrapping constructor of class `className`, run after the original
     * constructor has left `initial` on the instance. It reads the registry and
     * never changes it, and only the entry of `className` matters.
     */
    method Instantiate<V>(className: string, initial: map<string, V>, args: seq<Arg<V>>) returns (r: Outcome<V>)
      ensures r == Construct(if className in entries then Some(entries[className]) else None, initial, args)
    {
      var fields := initial;
      if |args| >= 1 {
        var routeProps := args[0];
        var guard := IsRouteProps(routeProps);
        if guard.None? {
          return Threw;
        }
        if guard.value && className in entries {
          RoutePropsIffEveryKind(routeProps);
          var props := routeProps.props;
          var ds := entries[className];
          var i := 0;
          while i < |ds|
            invariant 0 <= i <= |ds|
            invariant fields == Injected(initial, ds[..i], props)
          {
            var d := ds[i];
            match d.kind {
              case Match => fields := fields[d.prop := props["match"]];
              case History => fields := fields[d.prop := props["history"]];
              case Location => fields := fields[d.prop := props["location"]];
            }
            InjectedStep(initial, ds, props, i);
            i := i + 1;
          }
          assert ds[..|ds|] == ds;
        }
      }
      return Built(fields);
    }
  }
}
