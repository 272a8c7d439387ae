/**
 * Polymorphic resolution: which registrations apply to a message.
 *
 * The source builds `[value for key, value in d.items() if issubclass(type(m), key)]`,
 * flattens it, and for behaviors sorts the result by the global position. Here
 * `Matching` is that comprehension (over a `Selector`, so that the same walk
 * also yields every registration of a dict), `Flatten` the second comprehension
 * and `SortByPosition` the call to `sorted`.
 */
module Resolution {
  import opened Types
  import opened Dicts
  import opened Messages

  /** Which keys a walk over the dict keeps. */
  datatype Selector =
    | Everything
    | SupertypesOf(hierarchy: Hierarchy, runtimeType: TypeId)

  predicate Selects(sel: Selector, key: TypeId) {
    match sel
    case Everything => true
    case SupertypesOf(h, t) => IsSubclass(h, t, key)
  }

  ghost predicate KeysPresent<V>(keys: seq<TypeId>, entries: map<TypeId, V>) {
    forall k :: k in keys ==> k in entries
  }

  /** The lists stored under the selected keys, in key order. */
  function Matching<V>(keys: seq<TypeId>, entries: map<TypeId, seq<V>>, sel: Selector): seq<seq<V>>
    requires KeysPresent(keys, entries)
  {
    if keys == [] then []
    else (if Selects(sel, keys[0]) then [entries[keys[0]]] else []) + Matching(keys[1..], entries, sel)
  }

  function Flatten<V>(lists: seq<seq<V>>): seq<V> {
    if lists == [] then [] else lists[0] + Flatten(lists[1..])
  }

  /** The flattened matches of a walk over `keys`. */
  function Collected<V>(keys: seq<TypeId>, entries: map<TypeId, seq<V>>, sel: Selector): seq<V>
    requires KeysPresent(keys, entries)
  {
    Flatten(Matching(keys, entries, sel))
  }

  /** What one key contributes to a walk. */
  function Segment<V>(entries: map<TypeId, seq<V>>, sel: Selector, key: TypeId): seq<V>
    requires key in entries
  {
    if Selects(sel, key) then entries[key] else []
  }

  lemma {:induction false} CollectedCons<V>(keys: seq<TypeId>, entries: map<TypeId, seq<V>>, sel: Selector)
    requires keys != [] && KeysPresent(keys, entries)
    ensures Collected(keys, entries, sel) == Segment(entries, sel, keys[0]) + Collected(keys[1..], entries, sel)
  {
    var rest := Matching(keys[1..], entries, sel);
    if Selects(sel, keys[0]) {
      var m := [entries[keys[0]]] + rest;
      assert Matching(keys, entries, sel) == m;
      assert m[0] == entries[keys[0]] && m[1..] == rest;
    } else {
      assert Matching(keys, entries, sel) == rest;
    }
  }

  /** A walk over two runs of keys is the two walks, one after the other. */
  lemma {:induction false} CollectedConcat<V>(a: seq<TypeId>, b: seq<TypeId>, entries: map<TypeId, seq<V>>, sel: Selector)
    requires KeysPresent(a, entries) && KeysPresent(b, entries)
    ensures KeysPresent(a + b, entries)
    ensures Collected(a + b, entries, sel) == Collected(a, entries, sel) + Collected(b, entries, sel)
    decreases |a|
  {
    if a == [] {
      assert a + b == b;
    } else {
      var k := a[0];
      assert (a + b)[0] == k && (a + b)[1..] == a[1..] + b;
      CollectedConcat(a[1..], b, entries, sel);
      calc {
        Collected(a + b, entries, sel);
        { CollectedCons(a + b, entries, sel); }
        Segment(entries, sel, k) + Collected(a[1..] + b, entries, sel);
        Segment(entries, sel, k) + (Collected(a[1..], entries, sel) + Collected(b, entries, sel));
        { CollectedCons(a, entries, sel); }
        Collected(a, entries, sel) + Collected(b, entries, sel);
      }
    }
  }

  /** The walk only reads the entries of the keys it visits. */
  lemma {:induction false} CollectedFrame<V>(keys: seq<TypeId>, e1: map<TypeId, seq<V>>, e2: map<TypeId, seq<V>>, sel: Selector)
    requires forall k :: k in keys ==> k in e1 && k in e2 && e1[k] == e2[k]
    ensures KeysPresent(keys, e1) && KeysPresent(keys, e2)
    ensures Collected(keys, e1, sel) == Collected(keys, e2, sel)
    decreases |keys|
  {
    if keys != [] {
      CollectedCons(keys, e1, sel);
      CollectedCons(keys, e2, sel);
      CollectedFrame(keys[1..], e1, e2, sel);
    }
  }

  /** Each key's list appears as one block, in the keys' order. */
  lemma CollectedSplit<V>(keys: seq<TypeId>, entries: map<TypeId, seq<V>>, sel: Selector, i: nat)
    requires i < |keys| && KeysPresent(keys, entries)
    ensures KeysPresent(keys[..i], entries) && KeysPresent(keys[i + 1..], entries)
    ensures Collected(keys, entries, sel)
      == Collected(keys[..i], entries, sel) + Segment(entries, sel, keys[i]) + Collected(keys[i + 1..], entries, sel)
  {
    assert keys == keys[..i] + ([keys[i]] + keys[i + 1..]);
    CollectedConcat(keys[..i], [keys[i]] + keys[i + 1..], entries, sel);
    CollectedCons([keys[i]] + keys[i + 1..], entries, sel);
    assert ([keys[i]] + keys[i + 1..])[1..] == keys[i + 1..];
  }

  /** A value is collected exactly when it is listed under a selected key. */
  lemma {:induction false} CollectedMembers<V>(keys: seq<TypeId>, entries: map<TypeId, seq<V>>, sel: Selector)
    requires KeysPresent(keys, entries)
    ensures forall x :: x in Collected(keys, entries, sel) <==>
      exists k :: k in keys && Selects(sel, k) && x in entries[k]
    decreases |keys|
  {
    if keys != [] {
      CollectedCons(keys, entries, sel);
      CollectedMembers(keys[1..], entries, sel);
      forall x
        ensures x in Collected(keys, entries, sel) <==> exists k :: k in keys && Selects(sel, k) && x in entries[k]
      {
        if x in Collected(keys, entries, sel) {
          if x in Segment(entries, sel, keys[0]) {
            assert keys[0] in keys && Selects(sel, keys[0]) && x in entries[keys[0]];
          } else {
            var k :| k in keys[1..] && Selects(sel, k) && x in entries[k];
            assert k in keys;
          }
        } else {
          forall k | k in keys && Selects(sel, k) ensures x !in entries[k] {
            if k != keys[0] {
              assert k in keys[1..];
            }
          }
        }
      }
    }
  }

  /** Appending to a dict entry adds the value to every walk that selects its key. */
  lemma CollectedAfterAppend<V>(d: Dict<seq<V>>, key: TypeId, v: V, sel: Selector)
    requires d.Valid()
    ensures var d' := AppendTo(d, key, v);
      && KeysPresent(d.keys, d.entries) && KeysPresent(d'.keys, d'.entries)
      && multiset(Collected(d'.keys, d'.entries, sel))
         == multiset(Collected(d.keys, d.entries, sel)) + (if Selects(sel, key) then multiset{v} else multiset{})
      && (!Selects(sel, key) ==> Collected(d'.keys, d'.entries, sel) == Collected(d.keys, d.entries, sel))
      && (key !in d.entries ==> Collected(d'.keys, d'.entries, sel) == Collected(d.keys, d.entries, sel)
                                 + (if Selects(sel, key) then [v] else []))
  {
    var d' := AppendTo(d, key, v);
    if key in d.entries {
      CollectedAfterExtend(d.keys, d.entries, d'.entries, sel, key, [v]);
    } else {
      var extra := if Selects(sel, key) then [v] else [];
      assert d'.keys == d.keys + [key];
      calc {
        Collected(d'.keys, d'.entries, sel);
        { CollectedConcat(d.keys, [key], d'.entries, sel); }
        Collected(d.keys, d'.entries, sel) + Collected([key], d'.entries, sel);
        { CollectedFrame(d.keys, d.entries, d'.entries, sel); }
        Collected(d.keys, d.entries, sel) + Collected([key], d'.entries, sel);
        { CollectedCons([key], d'.entries, sel); assert [key][1..] == []; }
        Collected(d.keys, d.entries, sel) + extra;
      }
    }
  }

  /**
   * Extending the list of one key, listed at most once, extends every walk that
   * selects that key by the same values and leaves the other walks unchanged.
   */
  lemma {:induction false} CollectedAfterExtend<V>(
    keys: seq<TypeId>, e1: map<TypeId, seq<V>>, e2: map<TypeId, seq<V>>, sel: Selector, key: TypeId, extra: seq<V>)
    requires KeysPresent(keys, e1) && KeysPresent(keys, e2)
    requires forall i, j :: 0 <= i < j < |keys| ==> keys[i] != keys[j]
    requires forall k :: k in keys && k != key ==> e1[k] == e2[k]
    requires key in keys ==> e2[key] == e1[key] + extra
    ensures multiset(Collected(keys, e2, sel))
      == multiset(Collected(keys, e1, sel)) + (if key in keys && Selects(sel, key) then multiset(extra) else multiset{})
    ensures !(key in keys && Selects(sel, key)) ==> Collected(keys, e2, sel) == Collected(keys, e1, sel)
    decreases |keys|
  {
    if keys != [] {
      var rest := keys[1..];
      if keys[0] == key {
        CollectedExtendFirst(keys, e1, e2, sel, extra);
      } else {
        var k0 := keys[0];
        assert forall k :: k in rest ==> k in keys;
        assert key in keys <==> key in rest;
        DistinctTail(keys);
        CollectedAfterExtend(rest, e1, e2, sel, key, extra);
        var segment := Segment(e1, sel, k0);
        assert Collected(keys, e1, sel) == segment + Collected(rest, e1, sel) by {
          CollectedCons(keys, e1, sel);
        }
        assert Collected(keys, e2, sel) == segment + Collected(rest, e2, sel) by {
          CollectedCons(keys, e2, sel);
        }
      }
    }
  }

  lemma DistinctTail(keys: seq<TypeId>)
    requires keys != [] && forall i, j :: 0 <= i < j < |keys| ==> keys[i] != keys[j]
    ensures forall i, j :: 0 <= i < j < |keys[1..]| ==> keys[1..][i] != keys[1..][j]
    ensures keys[0] !in keys[1..]
  {
    forall i, j | 0 <= i < j < |keys[1..]| ensures keys[1..][i] != keys[1..][j] {
      assert keys[1..][i] == keys[i + 1] && keys[1..][j] == keys[j + 1];
    }
    forall j | 0 <= j < |keys[1..]| ensures keys[1..][j] != keys[0] {
      assert keys[1..][j] == keys[j + 1];
    }
  }

  /** The case of `CollectedAfterExtend` where the extended key comes first. */
  lemma CollectedExtendFirst<V>(keys: seq<TypeId>, e1: map<TypeId, seq<V>>, e2: map<TypeId, seq<V>>, sel: Selector, extra: seq<V>)
    requires keys != [] && KeysPresent(keys, e1) && KeysPresent(keys, e2)
    requires forall i, j :: 0 <= i < j < |keys| ==> keys[i] != keys[j]
    requires forall k :: k in keys && k != keys[0] ==> e1[k] == e2[k]
    requires e2[keys[0]] == e1[keys[0]] + extra
    ensures multiset(Collected(keys, e2, sel))
      == multiset(Collected(keys, e1, sel)) + (if Selects(sel, keys[0]) then multiset(extra) else multiset{})
    ensures !Selects(sel, keys[0]) ==> Collected(keys, e2, sel) == Collected(keys, e1, sel)
  {
    var key, rest := keys[0], keys[1..];
    var ext := if Selects(sel, key) then extra else [];
    DistinctTail(keys);
    CollectedFrame(rest, e1, e2, sel);
    CollectedCons(keys, e1, sel);
    CollectedCons(keys, e2, sel);
    var tail := Collected(rest, e1, sel);
    assert Collected(keys, e2, sel) == Segment(e1, sel, key) + ext + tail;
  }

  // ----- positions -------------------------------------------------------

  function Positions(s: seq<Registration>): set<nat> {
    set r | r in s :: r.position
  }

  predicate DistinctPositions(s: seq<Registration>) {
    forall i, j :: 0 <= i < j < |s| ==> s[i].position != s[j].position
  }

  predicate PositionsBelow(s: seq<Registration>, bound: nat) {
    forall r :: r in s ==> r.position < bound
  }

  predicate Ascending(s: seq<Registration>) {
    forall i, j :: 0 <= i < j < |s| ==> s[i].position <= s[j].position
  }

  predicate StrictlyAscending(s: seq<Registration>) {
    forall i, j :: 0 <= i < j < |s| ==> s[i].position < s[j].position
  }

  lemma PositionsConcat(a: seq<Registration>, b: seq<Registration>)
    ensures Positions(a + b) == Positions(a) + Positions(b)
  {
    forall r ensures r in a + b <==> r in a || r in b {
    }
  }

  lemma PositionsOfPermutation(a: seq<Registration>, b: seq<Registration>)
    requires multiset(a) == multiset(b)
    ensures Positions(a) == Positions(b)
  {
    forall r ensures r in a <==> r in b {
      assert r in a <==> r in multiset(a);
      assert r in b <==> r in multiset(b);
    }
  }

  lemma DistinctConcat(a: seq<Registration>, b: seq<Registration>)
    ensures DistinctPositions(a + b) <==>
      DistinctPositions(a) && DistinctPositions(b) && Positions(a) !! Positions(b)
  {
    var ab := a + b;
    if DistinctPositions(ab) {
      forall i, j | 0 <= i < j < |a| ensures a[i].position != a[j].position {
        assert ab[i] == a[i] && ab[j] == a[j];
      }
      forall i, j | 0 <= i < j < |b| ensures b[i].position != b[j].position {
        assert ab[|a| + i] == b[i] && ab[|a| + j] == b[j];
      }
      forall i, j | 0 <= i < |a| && 0 <= j < |b| ensures a[i].position != b[j].position {
        assert ab[i] == a[i] && ab[|a| + j] == b[j];
      }
      forall p | p in Positions(a) ensures p !in Positions(b) {
        var r :| r in a && r.position == p;
        var i :| 0 <= i < |a| && a[i] == r;
        forall r' | r' in b ensures r'.position != p {
          var j :| 0 <= j < |b| && b[j] == r';
        }
      }
    }
    if DistinctPositions(a) && DistinctPositions(b) && Positions(a) !! Positions(b) {
      forall i, j | 0 <= i < j < |ab| ensures ab[i].position != ab[j].position {
        if j < |a| {
          assert ab[i] == a[i] && ab[j] == a[j];
        } else if |a| <= i {
          assert ab[i] == b[i - |a|] && ab[j] == b[j - |a|];
        } else {
          assert ab[i] == a[i] && ab[j] == b[j - |a|];
          assert ab[i].position in Positions(a) && ab[j].position in Positions(b);
        }
      }
    }
  }

  /** Taking one registration out of a list with distinct positions. */
  lemma DistinctWithout(a: seq<Registration>, i: nat)
    requires i < |a| && DistinctPositions(a)
    ensures DistinctPositions(a[..i] + a[i + 1..])
    ensures a[i].position !in Positions(a[..i] + a[i + 1..])
    ensures multiset(a[..i] + a[i + 1..]) == multiset(a) - multiset{a[i]}
  {
    assert a == a[..i] + [a[i]] + a[i + 1..];
    assert multiset(a) == multiset(a[..i]) + multiset{a[i]} + multiset(a[i + 1..]);
    DistinctConcat(a[..i] + [a[i]], a[i + 1..]);
    DistinctConcat(a[..i], [a[i]]);
    DistinctConcat(a[..i], a[i + 1..]);
    PositionsConcat(a[..i], a[i + 1..]);
    assert a[i].position in Positions([a[i]]);
  }

  /** Distinct positions survive any reordering. */
  lemma {:induction false} DistinctPermutation(a: seq<Registration>, b: seq<Registration>)
    requires multiset(a) == multiset(b) && DistinctPositions(a)
    ensures DistinctPositions(b)
    decreases |b|
  {
    if b != [] {
      assert b[0] in multiset(a);
      var i :| 0 <= i < |a| && a[i] == b[0];
      var rest := a[..i] + a[i + 1..];
      DistinctWithout(a, i);
      assert b == [b[0]] + b[1..];
      assert multiset(b[1..]) == multiset(b) - multiset{b[0]};
      DistinctPermutation(rest, b[1..]);
      PositionsOfPermutation(rest, b[1..]);
      DistinctConcat([b[0]], b[1..]);
      assert b[0].position in Positions([b[0]]);
    }
  }

  /** Two strictly ascending orderings of the same registrations are the same list. */
  lemma {:induction false} StrictlyAscendingUnique(a: seq<Registration>, b: seq<Registration>)
    requires StrictlyAscending(a) && StrictlyAscending(b) && multiset(a) == multiset(b)
    ensures a == b
    decreases |a|
  {
    if a == [] {
      assert |multiset(b)| == 0;
    } else {
      assert |b| == |multiset(b)| == |multiset(a)| == |a|;
      SameHead(a, b);
      TailMultiset(a);
      TailMultiset(b);
      StrictlyAscendingUnique(a[1..], b[1..]);
      assert a == [a[0]] + a[1..] && b == [b[0]] + b[1..];
    }
  }

  /** The first of a strictly ascending list has the least position, so two such orderings start alike. */
  lemma SameHead(a: seq<Registration>, b: seq<Registration>)
    requires StrictlyAscending(a) && StrictlyAscending(b) && multiset(a) == multiset(b)
    requires a != [] && b != []
    ensures a[0] == b[0]
  {
    assert a[0] in multiset(b) && b[0] in multiset(a);
    var j :| 0 <= j < |b| && b[j] == a[0];
    var i :| 0 <= i < |a| && a[i] == b[0];
    assert b[0].position <= a[0].position <= b[0].position;
  }

  lemma TailMultiset<T>(a: seq<T>)
    requires a != []
    ensures multiset(a[1..]) == multiset(a) - multiset{a[0]}
  {
    assert a == [a[0]] + a[1..];
  }

  // ----- sorted(..., key=position) ---------------------------------------

  lemma AscendingCons(x: Registration, t: seq<Registration>)
    requires Ascending(t) && (t == [] || x.position <= t[0].position)
    ensures Ascending([x] + t)
  {
    forall i, j | 0 <= i < j < |[x] + t| ensures ([x] + t)[i].position <= ([x] + t)[j].position {
      if i == 0 {
        assert ([x] + t)[j] == t[j - 1];
      } else {
        assert ([x] + t)[i] == t[i - 1] && ([x] + t)[j] == t[j - 1];
      }
    }
  }

  function InsertByPosition(x: Registration, s: seq<Registration>): (r: seq<Registration>)
    requires Ascending(s)
    ensures Ascending(r)
    ensures multiset(r) == multiset(s) + multiset{x}
    ensures r != [] && (r[0] == x || (s != [] && r[0] == s[0]))
    decreases |s|
  {
    if s == [] || x.position <= s[0].position then
      AscendingCons(x, s);
      [x] + s
    else
      var t := InsertByPosition(x, s[1..]);
      assert s == [s[0]] + s[1..];
      assert t[0] != x ==> t[0] == s[1];
      AscendingCons(s[0], t);
      [s[0]] + t
  }

  /** A stable insertion sort on `position`, standing for `sorted(..., key=...)`. */
  function SortByPosition(s: seq<Registration>): (r: seq<Registration>)
    ensures Ascending(r)
    ensures multiset(r) == multiset(s)
  {
    if s == [] then []
    else
      assert s == [s[0]] + s[1..];
      InsertByPosition(s[0], SortByPosition(s[1..]))
  }

  // ----- the two resolvers -----------------------------------------------

  /** Every registration of a behavior dict, in key order. */
  function AllRegistrations(registry: Dict<seq<Registration>>): seq<Registration>
    requires registry.Valid()
  {
    Collected(registry.keys, registry.entries, Everything)
  }

  /** `_resolve_pipeline_behaviors` */
  function ResolvePipelineBehaviors(registry: Dict<seq<Registration>>, h: Hierarchy, requestType: TypeId)
    : (r: seq<Registration>)
    requires registry.Valid()
    ensures Ascending(r)
    ensures multiset(r) == multiset(Collected(registry.keys, registry.entries, SupertypesOf(h, requestType)))
  {
    SortByPosition(Collected(registry.keys, registry.entries, SupertypesOf(h, requestType)))
  }

  /**
   * `_resolve_notification_handlers`: a notification handler is resolved for
   * a notification exactly when it is stored under a key the notification's
   * type is a subclass of.
   */
  function ResolveNotificationHandlers(registry: Dict<seq<NotificationHandlerClass>>, h: Hierarchy, notificationType: TypeId)
    : (r: seq<NotificationHandlerClass>)
    requires registry.Valid()
    ensures forall x :: x in r <==>
      exists k :: k in registry.keys && IsSubclass(h, notificationType, k) && x in registry.entries[k]
  {
    CollectedMembers(registry.keys, registry.entries, SupertypesOf(h, notificationType));
    Collected(registry.keys, registry.entries, SupertypesOf(h, notificationType))
  }

  /**
   * A registration is resolved for a request exactly when it is stored under a
   * key the request's type is a subclass of.
   */
  lemma ResolvedBehaviorsMatch(registry: Dict<seq<Registration>>, h: Hierarchy, requestType: TypeId)
    requires registry.Valid()
    ensures forall x :: x in ResolvePipelineBehaviors(registry, h, requestType) <==>
      exists k :: k in registry.keys && IsSubclass(h, requestType, k) && x in registry.entries[k]
  {
    var flattened := Collected(registry.keys, registry.entries, SupertypesOf(h, requestType));
    var sorted := ResolvePipelineBehaviors(registry, h, requestType);
    CollectedMembers(registry.keys, registry.entries, SupertypesOf(h, requestType));
    forall x ensures x in sorted <==> x in flattened {
      assert x in sorted <==> x in multiset(sorted);
      assert x in flattened <==> x in multiset(flattened);
    }
  }

  // ----- properties of resolution ----------------------------------------

  /** A walk with any selector keeps the distinctness of the whole dict's positions. */
  lemma {:induction false} SelectedWithinAll(keys: seq<TypeId>, entries: map<TypeId, seq<Registration>>, sel: Selector)
    requires KeysPresent(keys, entries)
    requires DistinctPositions(Collected(keys, entries, Everything))
    ensures DistinctPositions(Collected(keys, entries, sel))
    ensures Positions(Collected(keys, entries, sel)) <= Positions(Collected(keys, entries, Everything))
    decreases |keys|
  {
    if keys != [] {
      CollectedCons(keys, entries, sel);
      CollectedCons(keys, entries, Everything);
      var whole := entries[keys[0]];
      DistinctConcat(whole, Collected(keys[1..], entries, Everything));
      SelectedWithinAll(keys[1..], entries, sel);
      DistinctConcat(Segment(entries, sel, keys[0]), Collected(keys[1..], entries, sel));
      PositionsConcat(whole, Collected(keys[1..], entries, Everything));
      PositionsConcat(Segment(entries, sel, keys[0]), Collected(keys[1..], entries, sel));
    }
  }

  /**
   * With positions unique and below the counter, the resolved behaviors are in
   * strictly ascending position order and below the counter.
   */
  lemma ResolvedBehaviorsStrictlyAscending(registry: Dict<seq<Registration>>, h: Hierarchy, requestType: TypeId, counter: nat)
    requires registry.Valid()
    requires DistinctPositions(AllRegistrations(registry)) && PositionsBelow(AllRegistrations(registry), counter)
    ensures StrictlyAscending(ResolvePipelineBehaviors(registry, h, requestType))
    ensures PositionsBelow(ResolvePipelineBehaviors(registry, h, requestType), counter)
  {
    var sel := SupertypesOf(h, requestType);
    var flattened := Collected(registry.keys, registry.entries, sel);
    var r := ResolvePipelineBehaviors(registry, h, requestType);
    SelectedWithinAll(registry.keys, registry.entries, sel);
    DistinctPermutation(flattened, r);
    PositionsOfPermutation(flattened, r);
    forall x | x in r ensures x.position < counter {
      assert x.position in Positions(r);
      var y :| y in AllRegistrations(registry) && y.position == x.position;
    }
  }

  /** Registering a behavior adds exactly its registration to the dict's registrations. */
  lemma RegisteringBehaviorAddsOneRegistration(registry: Dict<seq<Registration>>, b: PipelineBehaviorClass, counter: nat)
    requires registry.Valid()
    ensures var registry' := AppendTo(registry, b.requestType, Registration(b, counter));
      && registry'.Valid()
      && multiset(AllRegistrations(registry')) == multiset(AllRegistrations(registry)) + multiset{Registration(b, counter)}
  {
    var reg := Registration(b, counter);
    var all := AllRegistrations(registry);
    CollectedAfterAppend(registry, b.requestType, reg, Everything);
    assert multiset(all + [reg]) == multiset(all) + multiset{reg};
  }

  /**
   * Registering a behavior at position `counter` keeps the positions unique
   * and puts them below `counter + 1`.
   */
  lemma RegisteringBehaviorKeepsPositionsUnique(registry: Dict<seq<Registration>>, b: PipelineBehaviorClass, counter: nat)
    requires registry.Valid()
    requires DistinctPositions(AllRegistrations(registry)) && PositionsBelow(AllRegistrations(registry), counter)
    ensures var registry' := AppendTo(registry, b.requestType, Registration(b, counter));
      && registry'.Valid()
      && DistinctPositions(AllRegistrations(registry'))
      && PositionsBelow(AllRegistrations(registry'), counter + 1)
  {
    var reg := Registration(b, counter);
    var registry' := AppendTo(registry, b.requestType, reg);
    var all := AllRegistrations(registry);
    RegisteringBehaviorAddsOneRegistration(registry, b, counter);
    assert multiset(AllRegistrations(registry')) == multiset(all + [reg]);
    assert counter !in Positions(all);
    DistinctConcat(all, [reg]);
    DistinctPermutation(all + [reg], AllRegistrations(registry'));
    forall x | x in AllRegistrations(registry') ensures x.position < counter + 1 {
      assert x in multiset(AllRegistrations(registry'));
    }
  }

  /**
   * Registering a behavior for `b.requestType` puts it last in the resolution of
   * every request type that is a subclass of that key, and changes no other
   * resolution: its position is above every earlier one.
   */
  lemma RegisteringBehaviorAppendsToResolution(
    registry: Dict<seq<Registration>>, h: Hierarchy, requestType: TypeId, b: PipelineBehaviorClass, counter: nat)
    requires registry.Valid()
    requires DistinctPositions(AllRegistrations(registry)) && PositionsBelow(AllRegistrations(registry), counter)
    ensures var registry' := AppendTo(registry, b.requestType, Registration(b, counter));
      registry'.Valid() &&
      ResolvePipelineBehaviors(registry', h, requestType)
        == ResolvePipelineBehaviors(registry, h, requestType)
           + (if IsSubclass(h, requestType, b.requestType) then [Registration(b, counter)] else [])
  {
    var reg := Registration(b, counter);
    var registry' := AppendTo(registry, b.requestType, reg);
    var sel := SupertypesOf(h, requestType);
    var before := ResolvePipelineBehaviors(registry, h, requestType);
    var after := ResolvePipelineBehaviors(registry', h, requestType);
    var tail := if IsSubclass(h, requestType, b.requestType) then [reg] else [];
    CollectedAfterAppend(registry, b.requestType, reg, sel);
    RegisteringBehaviorKeepsPositionsUnique(registry, b, counter);
    ResolvedBehaviorsStrictlyAscending(registry, h, requestType, counter);
    ResolvedBehaviorsStrictlyAscending(registry', h, requestType, counter + 1);
    assert multiset(after) == multiset(before + tail);
    AppendAboveStrictlyAscending(before, tail, counter);
    StrictlyAscendingUnique(after, before + tail);
  }

  lemma AppendAboveStrictlyAscending(s: seq<Registration>, tail: seq<Registration>, counter: nat)
    requires StrictlyAscending(s) && PositionsBelow(s, counter)
    requires tail == [] || (|tail| == 1 && tail[0].position == counter)
    ensures StrictlyAscending(s + tail)
  {
    forall i, j | 0 <= i < j < |s + tail| ensures (s + tail)[i].position < (s + tail)[j].position {
      if j < |s| {
        assert (s + tail)[i] == s[i] && (s + tail)[j] == s[j];
      } else {
        assert (s + tail)[j] == tail[0] && (s + tail)[i] == s[i];
        assert s[i] in s;
      }
    }
  }

  /**
   * The resolved notification handlers are the per-key lists of the matching
   * keys, concatenated in the keys' first-insertion order, unsorted.
   */
  lemma NotificationHandlersInKeyOrder(
    registry: Dict<seq<NotificationHandlerClass>>, h: Hierarchy, notificationType: TypeId, i: nat)
    requires registry.Valid() && i < |registry.keys|
    ensures KeysPresent(registry.keys[..i], registry.entries) && KeysPresent(registry.keys[i + 1..], registry.entries)
    ensures ResolveNotificationHandlers(registry, h, notificationType)
      == Collected(registry.keys[..i], registry.entries, SupertypesOf(h, notificationType))
         + (if IsSubclass(h, notificationType, registry.keys[i]) then registry.entries[registry.keys[i]] else [])
         + Collected(registry.keys[i + 1..], registry.entries, SupertypesOf(h, notificationType))
  {
    CollectedSplit(registry.keys, registry.entries, SupertypesOf(h, notificationType), i);
  }

  /**
   * Registering a notification handler adds it once to the resolution of every
   * matching notification type, at the very end when its key is new, and leaves
   * the resolution of every other type unchanged.
   */
  lemma RegisteringNotificationHandlerExtendsResolution(
    registry: Dict<seq<NotificationHandlerClass>>, h: Hierarchy, notificationType: TypeId, n: NotificationHandlerClass)
    requires registry.Valid()
    ensures var registry' := AppendTo(registry, n.notificationType, n);
      var before := ResolveNotificationHandlers(registry, h, notificationType);
      var after := ResolveNotificationHandlers(registry', h, notificationType);
      && registry'.Valid()
      && multiset(after) == multiset(before)
         + (if IsSubclass(h, notificationType, n.notificationType) then multiset{n} else multiset{})
      && (!IsSubclass(h, notificationType, n.notificationType) ==> after == before)
      && (n.notificationType !in registry.entries && IsSubclass(h, notificationType, n.notificationType)
          ==> after == before + [n])
  {
    CollectedAfterAppend(registry, n.notificationType, n, SupertypesOf(h, notificationType));
  }

  /** Two behaviors registered one after the other for a type that resolved none. */
  lemma TwoRegistrationsResolveInOrder(
    registry: Dict<seq<Registration>>, middle: Dict<seq<Registration>>, after: Dict<seq<Registration>>,
    h: Hierarchy, t: TypeId, b1: PipelineBehaviorClass, b2: PipelineBehaviorClass, p1: nat, p2: nat)
    requires registry.Valid()
    requires DistinctPositions(AllRegistrations(registry)) && PositionsBelow(AllRegistrations(registry), p1)
    requires ResolvePipelineBehaviors(registry, h, t) == []
    requires IsSubclass(h, t, b1.requestType) && IsSubclass(h, t, b2.requestType)
    requires p2 == p1 + 1
    requires middle == AppendTo(registry, b1.requestType, Registration(b1, p1))
    requires after == AppendTo(middle, b2.requestType, Registration(b2, p2))
    ensures ResolvePipelineBehaviors(after, h, t) == [Registration(b1, p1), Registration(b2, p2)]
  {
    var first := Registration(b1, p1);
    var second := Registration(b2, p2);
    assert ResolvePipelineBehaviors(middle, h, t) == [first] by {
      RegisteringBehaviorAppendsToResolution(registry, h, t, b1, p1);
      assert [] + [first] == [first];
    }
    RegisteringBehaviorKeepsPositionsUnique(registry, b1, p1);
    RegisteringBehaviorAppendsToResolution(middle, h, t, b2, p2);
    PairConcat(first, second);
  }

  /**
   * Two notification handlers, for `t` or supertypes of it and under two
   * types not registered yet, registered where nothing resolves for `t`:
   * both are resolved, in registration order.
   */
  lemma TwoNotificationHandlersResolveInOrder(
    registry: Dict<seq<NotificationHandlerClass>>, middle: Dict<seq<NotificationHandlerClass>>,
    after: Dict<seq<NotificationHandlerClass>>, h: Hierarchy, t: TypeId,
    n1: NotificationHandlerClass, n2: NotificationHandlerClass)
    requires registry.Valid() && ResolveNotificationHandlers(registry, h, t) == []
    requires n1.notificationType !in registry.entries && n2.notificationType !in registry.entries
    requires n1.notificationType != n2.notificationType
    requires IsSubclass(h, t, n1.notificationType) && IsSubclass(h, t, n2.notificationType)
    requires middle == AppendTo(registry, n1.notificationType, n1)
    requires after == AppendTo(middle, n2.notificationType, n2)
    ensures ResolveNotificationHandlers(after, h, t) == [n1, n2]
  {
    RegisteringNotificationHandlerExtendsResolution(registry, h, t, n1);
    assert [] + [n1] == [n1];
    RegisteringNotificationHandlerExtendsResolution(middle, h, t, n2);
    PairConcat(n1, n2);
  }

  lemma PairConcat<T>(a: T, b: T)
    ensures [a] + [b] == [a, b]
  {
  }
}
