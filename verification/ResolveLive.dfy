/** Which live content a device shows: resolve-live.ts. */
module ResolveLive {
  import opened Wrappers

  /** until is a time, or none when the part stays until it is taken down. */
  datatype Part = Part(content: string, until: Option<int>)

  datatype Layer = Layer(main: Option<Part>, alert: Option<Part>, setBy: int, setAt: int)

  predicate Alive(part: Option<Part>, now: int) {
    part.Some? && (part.value.until.None? || part.value.until.value > now)
  }

  /** A layer without the parts whose time is over, or nothing when none is left. */
  function ActiveLayer(layer: Option<Layer>, now: int): Option<Layer> {
    if layer.None? then None
    else
      var main := if Alive(layer.value.main, now) then layer.value.main else None;
      var alert := if Alive(layer.value.alert, now) then layer.value.alert else None;
      if main.Some? || alert.Some? then Some(layer.value.(main := main, alert := alert)) else None
  }

  /** The parts without an end or with one that is still to come are kept as they are, the others are
      dropped, and nothing remains of a layer that keeps neither part. */
  lemma ActiveLayerExactly(layer: Layer, now: int)
    ensures ActiveLayer(None, now) == None
    ensures var lives := (part: Option<Part>) => match part
              case None => false
              case Some(Part(_, None)) => true
              case Some(Part(_, Some(until))) => now < until;
            var active := ActiveLayer(Some(layer), now);
            && (active.None? <==> !lives(layer.main) && !lives(layer.alert))
            && (active.Some? ==>
                  && active.value.main == (if lives(layer.main) then layer.main else None)
                  && active.value.alert == (if lives(layer.alert) then layer.alert else None)
                  && active.value.setBy == layer.setBy && active.value.setAt == layer.setAt)
  {
  }

  // ---------------------------------------------------------------- resolution

  /** Put an earlier element in front of the first one that was not set later. */
  function Insert(layer: Layer, sorted: seq<Layer>): seq<Layer> {
    if sorted == [] || sorted[0].setAt <= layer.setAt then [layer] + sorted
    else [sorted[0]] + Insert(layer, sorted[1..])
  }

  /** The stable sort by setAt, newest first. */
  function NewestFirst(groups: seq<Layer>): seq<Layer> {
    if groups == [] then [] else Insert(groups[0], NewestFirst(groups[1..]))
  }

  /** layers.find over one of the two parts. */
  function Find(layers: seq<Layer>, part: Layer -> Option<Part>, now: int): Option<Layer> {
    if layers == [] then None
    else if Alive(part(layers[0]), now) then Some(layers[0])
    else Find(layers[1..], part, now)
  }

  const MAIN: Layer -> Option<Part> := (layer: Layer) => layer.main
  const ALERT: Layer -> Option<Part> := (layer: Layer) => layer.alert

  function Layers(device: Option<Layer>, groups: seq<Layer>): seq<Layer> {
    (if device.Some? then [device.value] else []) + NewestFirst(groups)
  }

  function Newest(a: Option<Layer>, b: Option<Layer>): Layer
    requires a.Some? || b.Some?
  {
    if a.None? then b.value else if b.None? then a.value
    else if b.value.setAt > a.value.setAt then b.value else a.value
  }

  function Resolve(device: Option<Layer>, groups: seq<Layer>, now: int): Option<Layer> {
    var layers := Layers(device, groups);
    var mainFrom, alertFrom := Find(layers, MAIN, now), Find(layers, ALERT, now);
    if mainFrom.None? && alertFrom.None? then None
    else
      var newest := Newest(mainFrom, alertFrom);
      Some(Layer(if mainFrom.Some? then mainFrom.value.main else None,
                 if alertFrom.Some? then alertFrom.value.alert else None,
                 newest.setBy, newest.setAt))
  }

  // ---------------------------------------------------------------- what is picked

  predicate Descending(layers: seq<Layer>) {
    forall i, j :: 0 <= i < j < |layers| ==> layers[i].setAt >= layers[j].setAt
  }

  lemma {:induction false} InsertKeeps(layer: Layer, sorted: seq<Layer>)
    ensures multiset(Insert(layer, sorted)) == multiset(sorted) + multiset{layer}
  {
    if sorted != [] && sorted[0].setAt > layer.setAt {
      InsertKeeps(layer, sorted[1..]);
      assert sorted == [sorted[0]] + sorted[1..];
    }
  }

  lemma {:induction false} InsertSorts(layer: Layer, sorted: seq<Layer>, bound: int)
    requires Descending(sorted) && layer.setAt <= bound && forall i :: 0 <= i < |sorted| ==> sorted[i].setAt <= bound
    ensures Descending(Insert(layer, sorted))
    ensures forall i :: 0 <= i < |Insert(layer, sorted)| ==> Insert(layer, sorted)[i].setAt <= bound
  {
    if sorted != [] && sorted[0].setAt > layer.setAt {
      InsertSorts(layer, sorted[1..], sorted[0].setAt);
    }
  }

  function Latest(layers: seq<Layer>): int {
    if layers == [] then 0 else if layers[0].setAt >= Latest(layers[1..]) then layers[0].setAt else Latest(layers[1..])
  }

  lemma {:induction false} LatestBounds(layers: seq<Layer>)
    ensures forall i :: 0 <= i < |layers| ==> layers[i].setAt <= Latest(layers)
  {
    if layers != [] {
      LatestBounds(layers[1..]);
      assert forall i :: 1 <= i < |layers| ==> layers[i] == layers[1..][i - 1];
    }
  }

  lemma {:induction false} NewestFirstSorts(groups: seq<Layer>)
    ensures Descending(NewestFirst(groups))
    ensures multiset(NewestFirst(groups)) == multiset(groups)
  {
    if groups != [] {
      var rest := NewestFirst(groups[1..]);
      NewestFirstSorts(groups[1..]);
      InsertKeeps(groups[0], rest);
      LatestBounds(rest);
      var latest := Latest(rest);
      InsertSorts(groups[0], rest, if latest >= groups[0].setAt then latest else groups[0].setAt);
      assert groups == [groups[0]] + groups[1..];
    }
  }

  function SetAt(layers: seq<Layer>, time: int): seq<Layer> {
    if layers == [] then []
    else (if layers[0].setAt == time then [layers[0]] else []) + SetAt(layers[1..], time)
  }

  lemma SetAtHead(first: Layer, rest: seq<Layer>, time: int)
    ensures SetAt([first] + rest, time) == (if first.setAt == time then [first] else []) + SetAt(rest, time)
  {
    assert ([first] + rest)[1..] == rest;
  }

  lemma {:induction false} InsertIsStable(layer: Layer, sorted: seq<Layer>, time: int)
    requires Descending(sorted)
    ensures SetAt(Insert(layer, sorted), time) == SetAt([layer] + sorted, time)
  {
    hide SetAt;
    if sorted != [] && sorted[0].setAt > layer.setAt {
      var rest := sorted[1..];
      assert sorted == [sorted[0]] + rest;
      InsertIsStable(layer, rest, time);
      SetAtHead(sorted[0], Insert(layer, rest), time);
      SetAtHead(sorted[0], rest, time);
      SetAtHead(layer, rest, time);
      SetAtHead(layer, sorted, time);
    }
  }

  /** Groups that were set at the same time keep their order. */
  lemma {:induction false} SortIsStable(groups: seq<Layer>, time: int)
    ensures SetAt(NewestFirst(groups), time) == SetAt(groups, time)
  {
    if groups != [] {
      SortIsStable(groups[1..], time);
      NewestFirstSorts(groups[1..]);
      InsertIsStable(groups[0], NewestFirst(groups[1..]), time);
      SetAtHead(groups[0], NewestFirst(groups[1..]), time);
    }
  }

  lemma {:induction false} FindFirst(layers: seq<Layer>, part: Layer -> Option<Part>, now: int)
    ensures Find(layers, part, now).None? <==> forall i :: 0 <= i < |layers| ==> !Alive(part(layers[i]), now)
    ensures Find(layers, part, now).Some? ==>
              exists i :: 0 <= i < |layers| && layers[i] == Find(layers, part, now).value && Alive(part(layers[i]), now)
                          && forall j :: 0 <= j < i ==> !Alive(part(layers[j]), now)
  {
    if layers != [] && !Alive(part(layers[0]), now) {
      FindFirst(layers[1..], part, now);
      assert forall i :: 1 <= i < |layers| ==> layers[i] == layers[1..][i - 1];
      if Find(layers[1..], part, now).Some? {
        var i :| 0 <= i < |layers[1..]| && layers[1..][i] == Find(layers[1..], part, now).value
            && Alive(part(layers[1..][i]), now)
                 && forall j :: 0 <= j < i ==> !Alive(part(layers[1..][j]), now);
        assert layers[i + 1] == layers[1..][i];
        forall j | 0 <= j < i + 1
          ensures !Alive(part(layers[j]), now)
        {
          assert j == 0 || layers[j] == layers[1..][j - 1];
        }
      }
    }
  }

  /** In layers that are sorted newest first, the first live part is the newest one. */
  lemma {:induction false} FindNewest(sorted: seq<Layer>, part: Layer -> Option<Part>, now: int)
    requires Descending(sorted)
    ensures var found := Find(sorted, part, now);
            if found.Some? then
              && found.value in sorted && Alive(part(found.value), now)
              && forall layer :: layer in sorted && Alive(part(layer), now) ==> layer.setAt <= found.value.setAt
            else forall layer :: layer in sorted ==> !Alive(part(layer), now)
  {
    if sorted != [] {
      assert forall layer :: layer in sorted <==> layer == sorted[0] || layer in sorted[1..];
      FindNewest(sorted[1..], part, now);
    }
  }

  /** The device's own live part wins, then the live part of the group that was set last. */
  lemma PartIsPicked(device: Option<Layer>, groups: seq<Layer>, part: Layer -> Option<Part>, now: int)
    ensures var found := Find(Layers(device, groups), part, now);
            if device.Some? && Alive(part(device.value), now) then found == device
            else if found.Some? then
              && found.value in groups && Alive(part(found.value), now)
              && forall group :: group in groups && Alive(part(group), now) ==> group.setAt <= found.value.setAt
            else forall group :: group in groups ==> !Alive(part(group), now)
  {
    hide Alive, NewestFirst, Descending;
    var sorted := NewestFirst(groups);
    NewestFirstSorts(groups);
    FindNewest(sorted, part, now);
    SameElements(groups, sorted);
    if device.Some? {
      assert ([device.value] + sorted)[1..] == sorted;
    } else {
      assert [] + sorted == sorted;
    }
  }

  lemma SameElements(a: seq<Layer>, b: seq<Layer>)
    requires multiset(a) == multiset(b)
    ensures forall layer :: layer in a <==> layer in b
  {
    forall layer
      ensures layer in a <==> layer in b
    {
      assert layer in a <==> layer in multiset(a);
    }
  }

  /** What a device shows, part by part: its own one while that lives, else the living one of the
      group that was set last, else none; and nothing at all when it shows neither. */
  lemma ShownExactly(device: Option<Layer>, groups: seq<Layer>, now: int)
    ensures var lives := (part: Option<Part>) =>
              part.Some? && (part.value.until.None? || now < part.value.until.value);
            var result := Resolve(device, groups, now);
            var main, alert := if result.Some? then result.value.main else None,
                               if result.Some? then result.value.alert else None;
            && (if device.Some? && lives(device.value.main) then main == device.value.main
                else if exists group :: group in groups && lives(group.main) then
                  exists group :: group in groups && lives(group.main) && main == group.main
                    && forall other :: other in groups && lives(other.main) ==> other.setAt <= group.setAt
                else main == None)
            && (if device.Some? && lives(device.value.alert) then alert == device.value.alert
                else if exists group :: group in groups && lives(group.alert) then
                  exists group :: group in groups && lives(group.alert) && alert == group.alert
                    && forall other :: other in groups && lives(other.alert) ==> other.setAt <= group.setAt
                else alert == None)
            && (result.None? <==> main == None && alert == None)
  {
    PartIsPicked(device, groups, MAIN, now);
    PartIsPicked(device, groups, ALERT, now);
    ResolvedParts(device, groups, now);
    hide Find, Layers, Resolve;
  }

  /** main and alert are picked independently; setAt is the newest of the layers that they come from. */
  lemma ResolvedParts(device: Option<Layer>, groups: seq<Layer>, now: int)
    ensures var layers := Layers(device, groups);
            var mainFrom, alertFrom := Find(layers, MAIN, now), Find(layers, ALERT, now);
            var result := Resolve(device, groups, now);
            && (result.None? <==> mainFrom.None? && alertFrom.None?)
            && (result.Some? ==>
                  && (mainFrom.Some? ==> result.value.main == mainFrom.value.main)
                  && (mainFrom.Some? ==> result.value.setAt >= mainFrom.value.setAt)
                  && (alertFrom.Some? ==> result.value.alert == alertFrom.value.alert)
                  && (alertFrom.Some? ==> result.value.setAt >= alertFrom.value.setAt)
                  && (result.value.main.Some? ==> mainFrom.Some? && Alive(result.value.main, now))
                  && (result.value.alert.Some? ==> alertFrom.Some? && Alive(result.value.alert, now))
                  && (exists layer :: (Some(layer) == mainFrom || Some(layer) == alertFrom)
                                      && layer.setAt == result.value.setAt && layer.setBy == result.value.setBy)
                  && (mainFrom.Some? && result.value.setAt == mainFrom.value.setAt ==>
                        result.value.setBy == mainFrom.value.setBy))
  {
    var mainFrom, alertFrom := Find(Layers(device, groups), MAIN, now), Find(Layers(device, groups), ALERT, now);
    FindFirst(Layers(device, groups), MAIN, now);
    FindFirst(Layers(device, groups), ALERT, now);
    hide Find, Layers;
    if mainFrom.Some? || alertFrom.Some? {
      var newest := Newest(mainFrom, alertFrom);
      assert Some(newest) == mainFrom || Some(newest) == alertFrom;
    }
  }

  // ---------------------------------------------------------------- expired parts do not matter

  /** Every layer through ActiveLayer, without the nothings. */
  function Pruned(layers: seq<Layer>, now: int): seq<Layer> {
    if layers == [] then []
    else
      var first := ActiveLayer(Some(layers[0]), now);
      (if first.Some? then [first.value] else []) + Pruned(layers[1..], now)
  }

  lemma {:induction false} PrunedConcat(a: seq<Layer>, b: seq<Layer>, now: int)
    ensures Pruned(a + b, now) == Pruned(a, now) + Pruned(b, now)
  {
    hide ActiveLayer;
    if a == [] {
      assert a + b == b;
      assert [] + Pruned(b, now) == Pruned(b, now);
    } else {
      PrunedConcat(a[1..], b, now);
      assert (a + b)[0] == a[0] && (a + b)[1..] == a[1..] + b;
      var first := ActiveLayer(Some(a[0]), now);
      Associative(if first.Some? then [first.value] else [], Pruned(a[1..], now), Pruned(b, now));
    }
  }

  lemma Associative(a: seq<Layer>, b: seq<Layer>, c: seq<Layer>)
    ensures a + (b + c) == (a + b) + c
  {
  }

  lemma {:induction false} PrunedIsOlder(sorted: seq<Layer>, now: int, bound: int)
    requires forall i :: 0 <= i < |sorted| ==> sorted[i].setAt <= bound
    ensures forall i :: 0 <= i < |Pruned(sorted, now)| ==> Pruned(sorted, now)[i].setAt <= bound
  {
    if sorted != [] { PrunedIsOlder(sorted[1..], now, bound); }
  }

  lemma {:induction false} PrunedInsert(layer: Layer, sorted: seq<Layer>, now: int)
    requires Descending(sorted)
    ensures var active := ActiveLayer(Some(layer), now);
            Pruned(Insert(layer, sorted), now)
              == if active.Some? then Insert(active.value, Pruned(sorted, now)) else Pruned(sorted, now)
  {
    var active := ActiveLayer(Some(layer), now);
    if sorted == [] {
    } else if sorted[0].setAt <= layer.setAt {
      assert ([layer] + sorted)[1..] == sorted;
      PrunedIsOlder(sorted, now, layer.setAt);
    } else {
      PrunedInsert(layer, sorted[1..], now);
      assert ([sorted[0]] + Insert(layer, sorted[1..]))[1..] == Insert(layer, sorted[1..]);
      var first, rest := ActiveLayer(Some(sorted[0]), now), Pruned(sorted[1..], now);
      if first.Some? {
        assert ([first.value] + rest)[1..] == rest;
      } else {
        assert [] + rest == rest;
      }
      assert Pruned(sorted, now) == (if first.Some? then [first.value] + rest else rest);
    }
  }

  lemma {:induction false} PrunedSort(groups: seq<Layer>, now: int)
    ensures Pruned(NewestFirst(groups), now) == NewestFirst(Pruned(groups, now))
  {
    if groups != [] {
      PrunedSort(groups[1..], now);
      NewestFirstSorts(groups[1..]);
      PrunedInsert(groups[0], NewestFirst(groups[1..]), now);
      var first, rest := ActiveLayer(Some(groups[0]), now), Pruned(groups[1..], now);
      if first.Some? {
        assert ([first.value] + rest)[1..] == rest;
      } else {
        assert [] + rest == rest;
      }
    }
  }

  lemma {:induction false} PrunedFind(layers: seq<Layer>, part: Layer -> Option<Part>, now: int)
    requires part == MAIN || part == ALERT
    ensures Find(Pruned(layers, now), part, now) == ActiveLayer(Find(layers, part, now), now)
  {
    if layers != [] {
      PrunedFind(layers[1..], part, now);
      var first, rest := ActiveLayer(Some(layers[0]), now), Pruned(layers[1..], now);
      if first.Some? {
        assert ([first.value] + rest)[1..] == rest;
      } else {
        assert [] + rest == rest;
      }
    }
  }

  /** Dropping the expired parts of every layer first changes nothing. */
  lemma ActiveLayersSuffice(device: Option<Layer>, groups: seq<Layer>, now: int)
    ensures Resolve(ActiveLayer(device, now), Pruned(groups, now), now) == Resolve(device, groups, now)
  {
    hide Layers, Find, Pruned;
    LayersPruned(device, groups, now);
    var layers := Layers(device, groups);
    PrunedFind(layers, MAIN, now);
    PrunedFind(layers, ALERT, now);
    FindIsAlive(layers, MAIN, now);
    FindIsAlive(layers, ALERT, now);
  }

  lemma LayersPruned(device: Option<Layer>, groups: seq<Layer>, now: int)
    ensures Layers(ActiveLayer(device, now), Pruned(groups, now)) == Pruned(Layers(device, groups), now)
  {
    hide ActiveLayer, NewestFirst;
    PrunedSort(groups, now);
    if device.Some? {
      PrunedConcat([device.value], NewestFirst(groups), now);
      PrunedOne(device.value, now);
    } else {
      assert ActiveLayer(device, now) == None by { NothingActive(now); }
      assert [] + NewestFirst(groups) == NewestFirst(groups);
    }
  }

  lemma NothingActive(now: int)
    ensures ActiveLayer(None, now) == None
  {
  }

  lemma PrunedOne(layer: Layer, now: int)
    ensures var active := ActiveLayer(Some(layer), now);
            Pruned([layer], now) == if active.Some? then [active.value] else []
  {
    hide ActiveLayer;
    assert Pruned([layer][1..], now) == [];
  }

  lemma {:induction false} FindIsAlive(layers: seq<Layer>, part: Layer -> Option<Part>, now: int)
    ensures Find(layers, part, now).Some? ==> Alive(part(Find(layers, part, now).value), now)
  {
    if layers != [] { FindIsAlive(layers[1..], part, now); }
  }

  // ---------------------------------------------------------------- the order of groups does not matter

  predicate DistinctTimes(groups: seq<Layer>) {
    forall i, j :: 0 <= i < j < |groups| ==> groups[i].setAt != groups[j].setAt
  }

  /** No two different layers share their setAt. */
  ghost predicate TimesIdentify(layers: multiset<Layer>) {
    forall x, y :: x in layers && y in layers && x.setAt == y.setAt ==> x == y
  }

  lemma HeadIsNewest(sorted: seq<Layer>, layer: Layer)
    requires Descending(sorted) && layer in multiset(sorted)
    ensures sorted != [] && sorted[0] in multiset(sorted) && layer.setAt <= sorted[0].setAt
  {
    assert layer in sorted;
  }

  lemma HeadsAgree(a: seq<Layer>, b: seq<Layer>)
    requires Descending(a) && Descending(b) && multiset(a) == multiset(b) && TimesIdentify(multiset(a)) && a != []
    ensures b != [] && a[0] == b[0] && multiset(a[1..]) == multiset(b[1..]) && TimesIdentify(multiset(a[1..]))
  {
    hide Descending;
    assert a[0] in multiset(a);
    HeadIsNewest(b, a[0]);
    assert b[0] in multiset(b);
    HeadIsNewest(a, b[0]);
    TailOf(a);
    TailOf(b);
  }

  lemma TailOf(s: seq<Layer>)
    requires s != []
    ensures multiset(s[1..]) == multiset(s) - multiset{s[0]}
  {
    assert s == [s[0]] + s[1..];
  }

  lemma DescendingTail(s: seq<Layer>)
    requires Descending(s) && s != []
    ensures Descending(s[1..])
  {
  }

  lemma {:induction false} SortIsUnique(a: seq<Layer>, b: seq<Layer>)
    requires Descending(a) && Descending(b) && multiset(a) == multiset(b) && TimesIdentify(multiset(a))
    ensures a == b
    decreases |a|
  {
    hide Descending, TimesIdentify;
    if a == [] {
      assert |multiset(b)| == 0;
    } else {
      HeadsAgree(a, b);
      DescendingTail(a);
      DescendingTail(b);
      SortIsUnique(a[1..], b[1..]);
      assert a == [a[0]] + a[1..] && b == [b[0]] + b[1..];
    }
  }

  /** Groups with different setAt may come in any order. */
  lemma GroupOrderIsIrrelevant(device: Option<Layer>, groups: seq<Layer>, other: seq<Layer>, now: int)
    requires multiset(groups) == multiset(other) && DistinctTimes(groups)
    ensures Resolve(device, groups, now) == Resolve(device, other, now)
  {
    TimesAreDistinct(groups);
    hide DistinctTimes, TimesIdentify, Descending, Find;
    NewestFirstSorts(groups);
    NewestFirstSorts(other);
    SortIsUnique(NewestFirst(groups), NewestFirst(other));
  }

  lemma TimesAreDistinct(groups: seq<Layer>)
    requires DistinctTimes(groups)
    ensures TimesIdentify(multiset(groups))
  {
    forall x: Layer, y: Layer | x in multiset(groups) && y in multiset(groups) && x.setAt == y.setAt
      ensures x == y
    {
      assert x in groups && y in groups;
    }
  }
}
