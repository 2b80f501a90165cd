/**
 * The DoubleClick ad widget: `widget()` renders one placement, handing the ad
 * identifier, the non-empty per-breakpoint sizes and the optional lazy-load
 * argument to the external ad placer exactly once; `update()` sanitises the
 * settings posted from the widget form into the stored instance.
 *
 * Rendering is modelled as the sequence of events it produces: echoed HTML and
 * the one recorded call to `$doubleclick->place_ad`. The host's HTML filters
 * (`wp_kses_post`, the `widget_title` filter, `strip_tags`) are opaque and passed in.
 */
module Widget {
  import opened Php

  const DefaultIdentifier := "ident"
  const NoSizesComment :=
    "<!-- This DoubleClick for WordPress widget is not appearing because the widget has no sizes set for its breakpoints. -->"

  /** An ordered PHP array from breakpoint identifier to ad size, e.g. "300x250". */
  type SizeMap = seq<(string, string)>

  /** A PHP array never holds one key twice. */
  predicate DistinctKeys(m: SizeMap) {
    forall i, j :: 0 <= i < j < |m| ==> m[i].0 != m[j].0
  }

  predicate HasKey(m: SizeMap, k: string) {
    exists p :: p in m && p.0 == k
  }

  /** The settings of one placed widget; an absent key is `None` (or `Null`). */
  datatype Instance = Instance(
    title: Option<string>,
    identifier: Option<string>,
    lazyLoad: Scalar,
    breakpoints: Scalar,
    sizes: Option<SizeMap>,
    size: Option<string>)

  /** The sidebar's wrapper markup, as the host passes it in `$args`. */
  datatype WidgetArgs = WidgetArgs(beforeWidget: string, afterWidget: string, beforeTitle: string, afterTitle: string)

  /** The optional third argument of `place_ad`: `array('lazyLoad' => true)`. */
  datatype AdArgs = AdArgs(lazyLoad: bool)

  datatype Event =
    | Echo(html: string)
    | PlaceAd(identifier: string, sizes: SizeMap, args: Option<AdArgs>)

  /** Host functions this code calls but does not define. */
  datatype Host = Host(ksesPost: string -> string, widgetTitle: string -> string)

  // ---------------------------------------------------------------------------
  // Pieces of widget()

  /** The identifier handed to `place_ad`: the instance's when truthy, else 'ident'. */
  function AdIdentifier(instance: Instance): (id: string)
    ensures Truthy(id)
    ensures TruthyOpt(instance.identifier) ==> id == instance.identifier.value
    ensures !TruthyOpt(instance.identifier) ==> id == DefaultIdentifier
  {
    if TruthyOpt(instance.identifier) then instance.identifier.value else DefaultIdentifier
  }

  /** `empty($instance['sizes'])`: the key is missing or the array has no entries. */
  predicate SizesEmpty(instance: Instance) {
    instance.sizes.None? || instance.sizes.value == []
  }

  /** The `place_ad` options: `{lazyLoad: true}` exactly when the instance asks for lazy loading. */
  function AdOptions(instance: Instance): (args: Option<AdArgs>)
    ensures args.Some? <==> TruthyScalar(instance.lazyLoad)
    ensures args.Some? ==> args.value.lazyLoad
  {
    if TruthyScalar(instance.lazyLoad) then Some(AdArgs(true)) else None
  }

  /** The entries of `m` whose size is truthy, in their original order. */
  function DropEmptySizes(m: SizeMap): (r: SizeMap)
    ensures |r| <= |m|
  {
    if m == [] then []
    else
      var last := m[|m| - 1];
      DropEmptySizes(m[..|m| - 1]) + (if Truthy(last.1) then [last] else [])
  }

  /** `unset($m[$k])`: remove the entry with key `k`, if any. */
  function RemoveKey(m: SizeMap, k: string): (r: SizeMap)
    ensures |r| <= |m|
  {
    if m == [] then []
    else
      var last := m[|m| - 1];
      RemoveKey(m[..|m| - 1], k) + (if last.0 == k then [] else [last])
  }

  lemma {:induction false} RemoveKeyAppend(a: SizeMap, b: SizeMap, k: string)
    ensures RemoveKey(a + b, k) == RemoveKey(a, k) + RemoveKey(b, k)
    decreases |b|
  {
    if b == [] {
      assert a + b == a;
    } else {
      var b' := b[..|b| - 1];
      assert (a + b)[..|a + b| - 1] == a + b';
      assert (a + b)[|a + b| - 1] == b[|b| - 1];
      RemoveKeyAppend(a, b', k);
    }
  }

  lemma {:induction false} RemoveAbsentKey(m: SizeMap, k: string)
    requires !HasKey(m, k)
    ensures RemoveKey(m, k) == m
    decreases |m|
  {
    if m != [] {
      var n := |m| - 1;
      assert forall p :: p in m[..n] ==> p in m;
      assert m[n] in m;
      RemoveAbsentKey(m[..n], k);
      assert m == m[..n] + [m[n]];
    }
  }

  /** Removing a key that only `x` holds removes just `x`. */
  lemma RemoveOnlyHolder(a: SizeMap, x: (string, string), b: SizeMap)
    requires !HasKey(a, x.0) && !HasKey(b, x.0)
    ensures RemoveKey(a + [x] + b, x.0) == a + b
  {
    calc {
      RemoveKey(a + [x] + b, x.0);
    == { RemoveKeyAppend(a + [x], b, x.0); }
      RemoveKey(a + [x], x.0) + RemoveKey(b, x.0);
    == { RemoveKeyAppend(a, [x], x.0); }
      RemoveKey(a, x.0) + RemoveKey([x], x.0) + RemoveKey(b, x.0);
    == { assert [x][..0] == []; RemoveAbsentKey(a, x.0); RemoveAbsentKey(b, x.0); }
      a + [] + b;
    }
    assert a + [] + b == a + b;
  }

  /**
   * In the unset loop, `kept` (what is left of the visited entries) followed by the
   * unvisited ones: unsetting the current entry's key removes exactly that entry.
   */
  lemma UnsetVisited(kept: SizeMap, entries: SizeMap, i: nat)
    requires i < |entries| && DistinctKeys(entries)
    requires forall p :: p in kept ==> p in entries[..i]
    ensures RemoveKey(kept + entries[i..], entries[i].0) == kept + entries[i + 1..]
  {
    var k, rest := entries[i].0, entries[i + 1..];
    assert !HasKey(kept, k) by {
      forall p | p in kept ensures p.0 != k {
        var j :| 0 <= j < i && entries[..i][j] == p;
        assert entries[j] == p;
      }
    }
    assert !HasKey(rest, k) by {
      forall p | p in rest ensures p.0 != k {
        var j :| 0 <= j < |rest| && rest[j] == p;
        assert rest[j] == entries[i + 1 + j];
      }
    }
    assert kept + entries[i..] == kept + [entries[i]] + rest;
    RemoveOnlyHolder(kept, entries[i], rest);
  }

  /**
   * In the unset loop, the array being filtered holds the current key only in the
   * current entry, so `$sizes[$breakpoint]` reads this entry's own size.
   */
  lemma CurrentEntryHeld(entries: SizeMap, i: nat)
    requires i < |entries| && DistinctKeys(entries)
    ensures forall p :: p in DropEmptySizes(entries[..i]) + entries[i..] && p.0 == entries[i].0 ==> p == entries[i]
  {
    var k := entries[i].0;
    forall p | p in DropEmptySizes(entries[..i]) + entries[i..] && p.0 == k ensures p == entries[i] {
      if p in DropEmptySizes(entries[..i]) {
        DropEmptySizesSound(entries[..i], p);
        assert false;
      } else {
        var j :| 0 <= j < |entries[i..]| && entries[i..][j] == p;
        assert entries[i + j] == p;
      }
    }
  }

  /** One step of the unset loop, on an entry with an empty size. */
  lemma UnsetStep(entries: SizeMap, i: nat)
    requires i < |entries| && DistinctKeys(entries) && !Truthy(entries[i].1)
    ensures RemoveKey(DropEmptySizes(entries[..i]) + entries[i..], entries[i].0)
         == DropEmptySizes(entries[..i + 1]) + entries[i + 1..]
  {
    assert entries[..i + 1][..i] == entries[..i];
    assert entries[..i + 1][i] == entries[i];
    forall p | p in DropEmptySizes(entries[..i]) ensures p in entries[..i] {
      DropEmptySizesSound(entries[..i], p);
    }
    UnsetVisited(DropEmptySizes(entries[..i]), entries, i);
  }

  /** One step of the unset loop, on an entry with a truthy size. */
  lemma KeepStep(entries: SizeMap, i: nat)
    requires i < |entries| && Truthy(entries[i].1)
    ensures DropEmptySizes(entries[..i]) + entries[i..] == DropEmptySizes(entries[..i + 1]) + entries[i + 1..]
  {
    assert entries[..i + 1][..i] == entries[..i];
    assert entries[..i + 1][i] == entries[i];
    assert entries[i..] == [entries[i]] + entries[i + 1..];
  }

  /** The title line, present only when the instance has a truthy title. */
  function TitleOutput(args: WidgetArgs, instance: Instance, host: Host): (out: seq<Event>)
    ensures |out| <= 1
    ensures out != [] <==> TruthyOpt(instance.title)
  {
    if TruthyOpt(instance.title)
    then [Echo(host.ksesPost(args.beforeTitle + host.widgetTitle(instance.title.value) + args.afterTitle))]
    else []
  }

  /** Everything `widget()` emits, in order. */
  function WidgetOutput(args: WidgetArgs, instance: Instance, host: Host): seq<Event> {
    if SizesEmpty(instance) then [Echo(NoSizesComment)]
    else
      [Echo(host.ksesPost(args.beforeWidget))]
      + TitleOutput(args, instance, host)
      + [PlaceAd(AdIdentifier(instance), DropEmptySizes(instance.sizes.value), AdOptions(instance)),
         Echo(host.ksesPost(args.afterWidget))]
  }

  /** `DoubleClick_Widget::widget`. */
  method RenderWidget(args: WidgetArgs, instance: Instance, host: Host) returns (events: seq<Event>)
    requires instance.sizes.Some? ==> DistinctKeys(instance.sizes.value)
    ensures events == WidgetOutput(args, instance, host)
  {
    var identifier := if TruthyOpt(instance.identifier) then instance.identifier.value else DefaultIdentifier;

    if SizesEmpty(instance) {
      events := [Echo(NoSizesComment)];
      return;
    }
    var entries := instance.sizes.value;
    var sizes := entries;
    var i := 0;
    while i < |entries|
      invariant 0 <= i <= |entries|
      invariant sizes == DropEmptySizes(entries[..i]) + entries[i..]
    {
      // `$sizes[$breakpoint]` still holds this entry's size: each key is visited once.
      CurrentEntryHeld(entries, i);
      assert forall p :: p in sizes && p.0 == entries[i].0 ==> p == entries[i];
      if !Truthy(entries[i].1) {
        UnsetStep(entries, i);
        sizes := RemoveKey(sizes, entries[i].0);
      } else {
        KeepStep(entries, i);
      }
      i := i + 1;
    }
    assert entries[..|entries|] == entries;
    assert sizes == DropEmptySizes(entries);

    var dfwArgs: Option<AdArgs> := None;
    if TruthyScalar(instance.lazyLoad) {
      dfwArgs := Some(AdArgs(true));
    }

    events := [Echo(host.ksesPost(args.beforeWidget))];
    if TruthyOpt(instance.title) {
      events := events + [Echo(host.ksesPost(args.beforeTitle + host.widgetTitle(instance.title.value) + args.afterTitle))];
    }
    ghost var head := events;
    var call := PlaceAd(identifier, sizes, dfwArgs);
    events := events + [call];
    var after := Echo(host.ksesPost(args.afterWidget));
    events := events + [after];
    assert events == WidgetOutput(args, instance, host) by {
      assert head == [Echo(host.ksesPost(args.beforeWidget))] + TitleOutput(args, instance, host);
      assert identifier == AdIdentifier(instance) && dfwArgs == AdOptions(instance);
      AppendPair(head, call, after);
    }
  }

  lemma AppendPair<T>(s: seq<T>, x: T, y: T)
    ensures s + [x] + [y] == s + [x, y]
  {
  }

  // ---------------------------------------------------------------------------
  // Properties of widget()

  /** The recorded `place_ad` calls among `events`, in order. */
  function AdCalls(events: seq<Event>): (calls: seq<Event>)
    ensures |calls| <= |events|
    ensures forall e :: e in calls ==> e.PlaceAd? && e in events
  {
    if events == [] then []
    else
      var last := events[|events| - 1];
      AdCalls(events[..|events| - 1]) + (if last.PlaceAd? then [last] else [])
  }

  lemma {:induction false} AdCallsAppend(a: seq<Event>, b: seq<Event>)
    ensures AdCalls(a + b) == AdCalls(a) + AdCalls(b)
    decreases |b|
  {
    if b == [] {
      assert a + b == a;
    } else {
      var b' := b[..|b| - 1];
      assert (a + b)[..|a + b| - 1] == a + b';
      assert (a + b)[|a + b| - 1] == b[|b| - 1];
      AdCallsAppend(a, b');
    }
  }

  /**
   * `place_ad` is called exactly once when the instance has sizes, with the default-or-own
   * identifier, the filtered sizes and the lazy-load options; never when it has none.
   */
  lemma WidgetPlacesAdOnce(args: WidgetArgs, instance: Instance, host: Host)
    ensures AdCalls(WidgetOutput(args, instance, host))
         == if SizesEmpty(instance) then []
            else [PlaceAd(AdIdentifier(instance), DropEmptySizes(instance.sizes.value), AdOptions(instance))]
  {
    if !SizesEmpty(instance) {
      var call := PlaceAd(AdIdentifier(instance), DropEmptySizes(instance.sizes.value), AdOptions(instance));
      var after := Echo(host.ksesPost(args.afterWidget));
      var head := [Echo(host.ksesPost(args.beforeWidget))] + TitleOutput(args, instance, host);
      assert AdCalls(head) == [] by {
        assert head[..|head| - 1] == [] || head[..|head| - 1] == [head[0]];
        assert [head[0]][..0] == [];
      }
      assert AdCalls([call, after]) == [call] by {
        assert [call, after][..1] == [call];
        assert [call][..0] == [];
      }
      AdCallsAppend(head, [call, after]);
    } else {
      assert [Echo(NoSizesComment)][..0] == [];
    }
  }

  /**
   * Output order on the non-empty path: `before_widget`, the title only when it is
   * truthy, the ad, then `after_widget`. On the empty path only the comment is emitted.
   */
  lemma WidgetOutputOrder(args: WidgetArgs, instance: Instance, host: Host)
    ensures SizesEmpty(instance) ==> WidgetOutput(args, instance, host) == [Echo(NoSizesComment)]
    ensures !SizesEmpty(instance) ==>
      var out := WidgetOutput(args, instance, host);
      && |out| == (if TruthyOpt(instance.title) then 4 else 3)
      && out[0] == Echo(host.ksesPost(args.beforeWidget))
      && (TruthyOpt(instance.title) ==>
            out[1] == Echo(host.ksesPost(args.beforeTitle + host.widgetTitle(instance.title.value) + args.afterTitle)))
      && out[|out| - 2].PlaceAd?
      && out[|out| - 1] == Echo(host.ksesPost(args.afterWidget))
  {
  }

  /** Filtering sizes works entry by entry: it preserves the order of what it keeps. */
  lemma {:induction false} DropEmptySizesAppend(a: SizeMap, b: SizeMap)
    ensures DropEmptySizes(a + b) == DropEmptySizes(a) + DropEmptySizes(b)
    decreases |b|
  {
    if b == [] {
      assert a + b == a;
    } else {
      var b' := b[..|b| - 1];
      assert (a + b)[..|a + b| - 1] == a + b';
      assert (a + b)[|a + b| - 1] == b[|b| - 1];
      DropEmptySizesAppend(a, b');
    }
  }

  /** Filtering sizes twice is filtering them once. */
  lemma {:induction false} DropEmptySizesIdempotent(m: SizeMap)
    ensures DropEmptySizes(DropEmptySizes(m)) == DropEmptySizes(m)
    decreases |m|
  {
    if m != [] {
      var n := |m| - 1;
      DropEmptySizesIdempotent(m[..n]);
      var tail := if Truthy(m[n].1) then [m[n]] else [];
      DropEmptySizesAppend(DropEmptySizes(m[..n]), tail);
      assert DropEmptySizes(tail) == tail by {
        if tail != [] {
          assert tail[..0] == [];
        }
      }
    }
  }

  /** The filtered sizes are still a PHP array: no key appears twice. */
  lemma {:induction false} DropEmptySizesDistinct(m: SizeMap)
    requires DistinctKeys(m)
    ensures DistinctKeys(DropEmptySizes(m))
    decreases |m|
  {
    if m != [] {
      var n := |m| - 1;
      assert DistinctKeys(m[..n]);
      DropEmptySizesDistinct(m[..n]);
      var kept := DropEmptySizes(m[..n]);
      if Truthy(m[n].1) {
        forall j | 0 <= j < |kept| ensures kept[j].0 != m[n].0 {
          assert kept[j] in kept;
          DropEmptySizesSound(m[..n], kept[j]);
          var k :| 0 <= k < n && m[..n][k] == kept[j];
          assert m[k] == kept[j];
        }
      }
    }
  }

  /** After filtering, every remaining entry is one of the input's and has a truthy size. */
  lemma {:induction false} DropEmptySizesSound(m: SizeMap, p: (string, string))
    requires p in DropEmptySizes(m)
    ensures p in m && Truthy(p.1)
    decreases |m|
  {
    var n := |m| - 1;
    if p in DropEmptySizes(m[..n]) {
      DropEmptySizesSound(m[..n], p);
      assert p in m[..n];
    }
  }

  /** Every entry with a truthy size survives filtering, with the same key and size. */
  lemma {:induction false} DropEmptySizesComplete(m: SizeMap, i: nat)
    requires i < |m| && Truthy(m[i].1)
    ensures m[i] in DropEmptySizes(m)
    decreases |m|
  {
    var n := |m| - 1;
    if i < n {
      assert m[..n][i] == m[i];
      DropEmptySizesComplete(m[..n], i);
    }
  }

  /** Sizes that are all empty filter down to nothing. */
  lemma {:induction false} DropEmptySizesAllEmpty(m: SizeMap)
    requires forall p :: p in m ==> !Truthy(p.1)
    ensures DropEmptySizes(m) == []
    decreases |m|
  {
    if m != [] {
      var n := |m| - 1;
      assert m[n] in m;
      assert forall p :: p in m[..n] ==> p in m;
      DropEmptySizesAllEmpty(m[..n]);
    }
  }

  /**
   * The emptiness check runs before filtering: sizes that are present but all empty
   * still reach `place_ad`, once, as an empty map.
   */
  lemma AllEmptySizesStillPlaceAd(args: WidgetArgs, instance: Instance, host: Host)
    requires instance.sizes.Some? && instance.sizes.value != []
    requires forall p :: p in instance.sizes.value ==> !Truthy(p.1)
    ensures AdCalls(WidgetOutput(args, instance, host)) == [PlaceAd(AdIdentifier(instance), [], AdOptions(instance))]
  {
    WidgetPlacesAdOnce(args, instance, host);
    DropEmptySizesAllEmpty(instance.sizes.value);
  }

  lemma RenderExampleOneSize(args: WidgetArgs, host: Host)
    ensures var instance := Instance(None, None, Null, Null, Some([("phone", ""), ("tablet", "300x250")]), None);
            AdCalls(WidgetOutput(args, instance, host)) == [PlaceAd("ident", [("tablet", "300x250")], None)]
  {
    var m: SizeMap := [("phone", ""), ("tablet", "300x250")];
    var instance := Instance(None, None, Null, Null, Some(m), None);
    WidgetPlacesAdOnce(args, instance, host);
    assert m[..1] == [("phone", "")];
    assert m[..1][..0] == [];
    assert DropEmptySizes(m) == [("tablet", "300x250")];
  }

  // ---------------------------------------------------------------------------
  // update()

  /**
   * `DoubleClick_Widget::update`: a fresh instance built field by field from the posted
   * values; the previous instance is not consulted and the title is not carried over.
   */
  function Update(newInstance: Instance, oldInstance: Instance, stripTags: string -> string): (instance: Instance)
    ensures instance.title.None?
    ensures instance.identifier.Some?
    ensures TruthyOpt(newInstance.identifier) ==> instance.identifier.value == stripTags(newInstance.identifier.value)
    ensures !TruthyOpt(newInstance.identifier) ==> instance.identifier.value == ""
    ensures TruthyScalar(instance.lazyLoad) <==> TruthyScalar(newInstance.lazyLoad)
    ensures TruthyScalar(newInstance.lazyLoad) ==> instance.lazyLoad == newInstance.lazyLoad
    ensures !TruthyScalar(newInstance.lazyLoad) ==> instance.lazyLoad == Int(0)
    ensures instance.breakpoints == newInstance.breakpoints
    ensures instance.sizes == newInstance.sizes && instance.size == newInstance.size
  {
    Instance(
      title := None,
      identifier := Some(if TruthyOpt(newInstance.identifier) then stripTags(newInstance.identifier.value) else ""),
      lazyLoad := if TruthyScalar(newInstance.lazyLoad) then newInstance.lazyLoad else Int(0),
      breakpoints := newInstance.breakpoints,
      sizes := newInstance.sizes,
      size := newInstance.size)
  }

  /** The previous instance has no influence on the result. */
  lemma UpdateIgnoresOld(newInstance: Instance, old1: Instance, old2: Instance, stripTags: string -> string)
    ensures Update(newInstance, old1, stripTags) == Update(newInstance, old2, stripTags)
  {
  }

  /**
   * Rendering an instance saved by `update()`: no title line ever, an ad exactly when the
   * posted sizes are non-empty, under the stripped identifier when that is truthy and
   * 'ident' otherwise, lazily exactly when the posted lazyLoad is truthy.
   */
  lemma UpdateThenRender(newInstance: Instance, oldInstance: Instance, stripTags: string -> string,
                         args: WidgetArgs, host: Host)
    ensures var instance := Update(newInstance, oldInstance, stripTags);
            var id := newInstance.identifier;
            && TitleOutput(args, instance, host) == []
            && AdCalls(WidgetOutput(args, instance, host))
               == if newInstance.sizes.None? || newInstance.sizes.value == [] then []
                  else [PlaceAd(if TruthyOpt(id) && Truthy(stripTags(id.value)) then stripTags(id.value) else DefaultIdentifier,
                                DropEmptySizes(newInstance.sizes.value),
                                if TruthyScalar(newInstance.lazyLoad) then Some(AdArgs(true)) else None)]
  {
    var instance := Update(newInstance, oldInstance, stripTags);
    WidgetPlacesAdOnce(args, instance, host);
  }
}
