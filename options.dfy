/**
 * The settings page of DoubleClick for WordPress: the breakpoint sanitiser that
 * reshapes the flat posted list into breakpoint records, the five-slot breakpoint
 * form that produces that list, and the network-code field with its theme override.
 *
 * A rendered form is modelled as the sequence of its `<input>` elements; what the
 * browser posts back is `Submitted`, the values of the enabled inputs that carry a
 * name, in document order.
 */
module Options {
  import opened Php

  /** The sanitiser cuts the posted list into groups of this many values. */
  const GroupSize: nat := 3
  /** The breakpoint form always renders this many editable slots. */
  const FormSlots: nat := 5
  const BreakpointsField := "dfw_breakpoints[]"
  const NetworkCodeField := "dfw_network_code"
  const SetInThemeSuffix := " (set in theme)"

  /**
   * A stored breakpoint: `{identifier, min-width, max-width}`. A width is `None`
   * when the sanitiser read it from an index the posted group did not have
   * (PHP yields null there); no numeric validation is ever applied.
   */
  datatype Breakpoint = Breakpoint(identifier: string, minWidth: Option<string>, maxWidth: Option<string>)

  /** One `<input>` element: its `name` attribute (if any), its value and whether it is disabled. */
  datatype Input = Input(name: Option<string>, value: string, disabled: bool)

  /** A breakpoint supplied by the theme through the external `$doubleclick` object. */
  datatype ThemeBreakpoint = ThemeBreakpoint(identifier: string, minWidth: string, maxWidth: string, option: bool)

  // ---------------------------------------------------------------------------
  // array_chunk

  function Concat<T>(groups: seq<seq<T>>): seq<T> {
    if groups == [] then [] else groups[0] + Concat(groups[1..])
  }

  /** PHP's `array_chunk($s, 3)`: consecutive groups of three, the last possibly shorter. */
  function ArrayChunk<T>(s: seq<T>): (groups: seq<seq<T>>)
    ensures Concat(groups) == s
    ensures forall g :: g in groups ==> 0 < |g| <= GroupSize
    decreases |s|
  {
    if |s| == 0 then []
    else if |s| <= GroupSize then [s]
    else [s[..GroupSize]] + ArrayChunk(s[GroupSize..])
  }

  /** `array_chunk` yields ceil(|s| / 3) groups. */
  lemma {:induction false} ArrayChunkCount<T>(s: seq<T>)
    ensures |ArrayChunk(s)| == (|s| + 2) / 3
    decreases |s|
  {
    if |s| > GroupSize {
      ArrayChunkCount(s[GroupSize..]);
    }
  }

  /** Every group but the last is full. */
  lemma {:induction false} ArrayChunkFull<T>(s: seq<T>, i: nat)
    requires i < |ArrayChunk(s)| - 1
    ensures |ArrayChunk(s)[i]| == GroupSize
    decreases |s|
  {
    if i > 0 {
      ArrayChunkFull(s[GroupSize..], i - 1);
    }
  }

  /** When the length is a multiple of three, all groups are full. */
  lemma {:induction false} ArrayChunkWhole<T>(s: seq<T>)
    requires |s| % GroupSize == 0
    ensures forall g :: g in ArrayChunk(s) ==> |g| == GroupSize
    decreases |s|
  {
    if |s| > GroupSize {
      ArrayChunkWhole(s[GroupSize..]);
    }
  }

  lemma {:induction false} ArrayChunkAppend<T>(a: seq<T>, b: seq<T>)
    requires |a| % GroupSize == 0
    ensures ArrayChunk(a + b) == ArrayChunk(a) + ArrayChunk(b)
    decreases |a|
  {
    if |a| == 0 {
      assert a + b == b;
    } else if |a + b| <= GroupSize {
      assert b == [] && a + b == a;
    } else {
      assert (a + b)[..GroupSize] == a[..GroupSize];
      assert (a + b)[GroupSize..] == a[GroupSize..] + b;
      ArrayChunkAppend(a[GroupSize..], b);
      if |a| == GroupSize {
        assert a[..GroupSize] == a && a[GroupSize..] == [];
      }
    }
  }

  // ---------------------------------------------------------------------------
  // dfw_breakpoints_save

  /** The value at index `i` of a group, or null when the group has no such index. */
  function At(group: seq<string>, i: nat): (v: Option<string>)
    ensures v.Some? <==> i < |group|
    ensures i < |group| ==> v.value == group[i]
  {
    if i < |group| then Some(group[i]) else None
  }

  /** `isset($group[0]) && $group[0]`. */
  predicate KeepsGroup(group: seq<string>) {
    |group| > 0 && Truthy(group[0])
  }

  /** The record of a kept group: its elements 0, 1 and 2, null where the group is short. */
  function GroupRecord(group: seq<string>): (b: Breakpoint)
    requires |group| > 0
    ensures b.identifier == group[0]
    ensures b.minWidth.Some? <==> |group| > 1
    ensures b.maxWidth.Some? <==> |group| > 2
    ensures |group| > 1 ==> b.minWidth == Some(group[1])
    ensures |group| > 2 ==> b.maxWidth == Some(group[2])
  {
    Breakpoint(group[0], At(group, 1), At(group, 2))
  }

  /** The records of the kept groups, in group order. */
  function KeptRecords(groups: seq<seq<string>>): (bps: seq<Breakpoint>)
    ensures |bps| <= |groups|
    ensures forall b :: b in bps ==> Truthy(b.identifier)
  {
    if groups == [] then []
    else
      var last := groups[|groups| - 1];
      KeptRecords(groups[..|groups| - 1]) + (if KeepsGroup(last) then [GroupRecord(last)] else [])
  }

  /** What `dfw_breakpoints_save` returns for the posted list `value`. */
  function SavedRecords(value: seq<string>): (bps: seq<Breakpoint>)
    ensures forall b :: b in bps ==> Truthy(b.identifier)
  {
    KeptRecords(ArrayChunk(value))
  }

  /** At most one record per group of three: at most five for the fifteen-value form. */
  lemma SavedRecordsBound(value: seq<string>)
    ensures |SavedRecords(value)| <= (|value| + 2) / 3
    ensures |value| == GroupSize * FormSlots ==> |SavedRecords(value)| <= FormSlots
  {
    ArrayChunkCount(value);
  }

  /** `dfw_breakpoints_save`: chunk the posted list and append one record per kept group. */
  method SaveBreakpoints(value: seq<string>) returns (breakpoints: seq<Breakpoint>)
    ensures breakpoints == SavedRecords(value)
  {
    breakpoints := [];
    var groups := ArrayChunk(value);
    var i := 0;
    while i < |groups|
      invariant 0 <= i <= |groups|
      invariant breakpoints == KeptRecords(groups[..i])
    {
      var group := groups[i];
      if |group| > 0 && Truthy(group[0]) {
        breakpoints := breakpoints + [Breakpoint(group[0], At(group, 1), At(group, 2))];
      }
      assert groups[..i + 1][..i] == groups[..i];
      i := i + 1;
    }
    assert groups[..|groups|] == groups;
  }

  lemma {:induction false} KeptRecordsAppend(a: seq<seq<string>>, b: seq<seq<string>>)
    ensures KeptRecords(a + b) == KeptRecords(a) + KeptRecords(b)
    decreases |b|
  {
    if b == [] {
      assert a + b == a;
    } else {
      var b' := b[..|b| - 1];
      assert (a + b)[..|a + b| - 1] == a + b';
      assert (a + b)[|a + b| - 1] == b[|b| - 1];
      KeptRecordsAppend(a, b');
    }
  }

  /** Saving splits at any whole number of groups: slots are sanitised independently, in order. */
  lemma SavedRecordsAppend(a: seq<string>, b: seq<string>)
    requires |a| % GroupSize == 0
    ensures SavedRecords(a + b) == SavedRecords(a) + SavedRecords(b)
  {
    ArrayChunkAppend(a, b);
    KeptRecordsAppend(ArrayChunk(a), ArrayChunk(b));
  }

  /** One whole slot: kept, fields unchanged, exactly when its identifier is truthy. */
  lemma SavedSlot(identifier: string, minWidth: string, maxWidth: string)
    ensures SavedRecords([identifier, minWidth, maxWidth])
         == if Truthy(identifier) then [Breakpoint(identifier, Some(minWidth), Some(maxWidth))] else []
  {
    assert ArrayChunk([identifier, minWidth, maxWidth]) == [[identifier, minWidth, maxWidth]];
  }

  /** A short trailing group with a truthy identifier is kept, its missing widths null. */
  lemma SavedShortGroup(identifier: string, rest: seq<string>)
    requires |rest| < GroupSize - 1
    ensures SavedRecords([identifier] + rest)
         == if Truthy(identifier) then [Breakpoint(identifier, At(rest, 0), None)] else []
  {
    assert ArrayChunk([identifier] + rest) == [[identifier] + rest];
  }

  /** Each record `SavedRecords` emits is a kept group, copied field by field. */
  lemma {:induction false} KeptRecordsSound(groups: seq<seq<string>>, b: Breakpoint)
    requires b in KeptRecords(groups)
    ensures exists i :: 0 <= i < |groups| && KeepsGroup(groups[i]) && b == GroupRecord(groups[i])
    decreases |groups|
  {
    var n := |groups| - 1;
    if b in KeptRecords(groups[..n]) {
      KeptRecordsSound(groups[..n], b);
      var i :| 0 <= i < n && KeepsGroup(groups[..n][i]) && b == GroupRecord(groups[..n][i]);
      assert groups[..n][i] == groups[i];
    } else {
      assert KeepsGroup(groups[n]) && b == GroupRecord(groups[n]);
    }
  }

  /** Every kept group's record appears in the output. */
  lemma {:induction false} KeptRecordsComplete(groups: seq<seq<string>>, i: nat)
    requires i < |groups| && KeepsGroup(groups[i])
    ensures GroupRecord(groups[i]) in KeptRecords(groups)
    decreases |groups|
  {
    var n := |groups| - 1;
    if i < n {
      assert groups[..n][i] == groups[i];
      KeptRecordsComplete(groups[..n], i);
    }
  }

  /** Saving a whole number of slots yields records whose widths are all present. */
  lemma {:induction false} KeptRecordsOfWholeGroups(groups: seq<seq<string>>)
    requires forall g :: g in groups ==> |g| == GroupSize
    ensures forall b :: b in KeptRecords(groups) ==> Complete(b)
    decreases |groups|
  {
    if groups != [] {
      var n := |groups| - 1;
      assert forall g :: g in groups[..n] ==> g in groups;
      assert groups[n] in groups;
      KeptRecordsOfWholeGroups(groups[..n]);
    }
  }

  // ---------------------------------------------------------------------------
  // Flattening records back into the posted shape

  /** The three values the form posts for one record; an absent field is posted as ''. */
  function PostedSlot(b: Breakpoint): (values: seq<string>)
    ensures |values| == GroupSize
    ensures GroupRecord(values).identifier == b.identifier
    ensures GroupRecord(values).minWidth == Some(b.minWidth.GetOr(""))
    ensures GroupRecord(values).maxWidth == Some(b.maxWidth.GetOr(""))
  {
    [b.identifier, b.minWidth.GetOr(""), b.maxWidth.GetOr("")]
  }

  function Flatten(bps: seq<Breakpoint>): (values: seq<string>)
    ensures |values| == GroupSize * |bps|
  {
    if bps == [] then [] else Flatten(bps[..|bps| - 1]) + PostedSlot(bps[|bps| - 1])
  }

  lemma {:induction false} FlattenAppend(a: seq<Breakpoint>, b: seq<Breakpoint>)
    ensures Flatten(a + b) == Flatten(a) + Flatten(b)
    decreases |b|
  {
    if b == [] {
      assert a + b == a;
    } else {
      var b' := b[..|b| - 1];
      assert (a + b)[..|a + b| - 1] == a + b';
      assert (a + b)[|a + b| - 1] == b[|b| - 1];
      FlattenAppend(a, b');
    }
  }

  /** A record as it comes back from a save of its posted slot: absent widths become ''. */
  function Filled(b: Breakpoint): Breakpoint {
    Breakpoint(b.identifier, Some(b.minWidth.GetOr("")), Some(b.maxWidth.GetOr("")))
  }

  /** Reference definition of posting then saving records: truthy ones, filled, in order. */
  function Resaved(bps: seq<Breakpoint>): seq<Breakpoint> {
    if bps == [] then []
    else
      var last := bps[|bps| - 1];
      Resaved(bps[..|bps| - 1]) + (if Truthy(last.identifier) then [Filled(last)] else [])
  }

  lemma {:induction false} ResavedAppend(a: seq<Breakpoint>, b: seq<Breakpoint>)
    ensures Resaved(a + b) == Resaved(a) + Resaved(b)
    decreases |b|
  {
    if b == [] {
      assert a + b == a;
    } else {
      var b' := b[..|b| - 1];
      assert (a + b)[..|a + b| - 1] == a + b';
      assert (a + b)[|a + b| - 1] == b[|b| - 1];
      ResavedAppend(a, b');
    }
  }

  /** Posting records and saving them gives exactly the reference `Resaved`. */
  lemma {:induction false} SaveFlattened(bps: seq<Breakpoint>)
    ensures SavedRecords(Flatten(bps)) == Resaved(bps)
    decreases |bps|
  {
    if bps != [] {
      var init, last := bps[..|bps| - 1], bps[|bps| - 1];
      SaveFlattened(init);
      SavedRecordsAppend(Flatten(init), PostedSlot(last));
      SavedSlot(last.identifier, last.minWidth.GetOr(""), last.maxWidth.GetOr(""));
    }
  }

  /** A record as the sanitiser emits it for a whole slot: truthy identifier, both widths present. */
  predicate Complete(b: Breakpoint) {
    Truthy(b.identifier) && b.minWidth.Some? && b.maxWidth.Some?
  }

  lemma {:induction false} ResavedIdentity(bps: seq<Breakpoint>)
    requires forall b :: b in bps ==> Complete(b)
    ensures Resaved(bps) == bps
    decreases |bps|
  {
    if bps != [] {
      var n := |bps| - 1;
      var last := bps[n];
      assert bps[n] in bps;
      assert Filled(last) == last;
      assert forall b :: b in bps[..n] ==> b in bps;
      ResavedIdentity(bps[..n]);
      assert bps == bps[..n] + [last];
    }
  }

  /** Round trip: records with truthy identifiers and both widths survive a post and save unchanged. */
  lemma RoundTrip(bps: seq<Breakpoint>)
    requires forall b :: b in bps ==> Complete(b)
    ensures SavedRecords(Flatten(bps)) == bps
  {
    SaveFlattened(bps);
    ResavedIdentity(bps);
  }

  /** Idempotence: re-posting what a save of whole slots produced saves to the same records. */
  lemma SaveIdempotent(value: seq<string>)
    requires |value| % GroupSize == 0
    ensures SavedRecords(Flatten(SavedRecords(value))) == SavedRecords(value)
  {
    ArrayChunkWhole(value);
    KeptRecordsOfWholeGroups(ArrayChunk(value));
    RoundTrip(SavedRecords(value));
  }

  // ---------------------------------------------------------------------------
  // dfw_breakpoints_input

  /** Browser form submission: the values of the enabled inputs named `name`, in document order. */
  function Submitted(inputs: seq<Input>, name: string): seq<string> {
    if inputs == [] then []
    else
      var last := inputs[|inputs| - 1];
      Submitted(inputs[..|inputs| - 1], name)
        + (if !last.disabled && last.name == Some(name) then [last.value] else [])
  }

  lemma {:induction false} SubmittedAppend(a: seq<Input>, b: seq<Input>, name: string)
    ensures Submitted(a + b, name) == Submitted(a, name) + Submitted(b, name)
    decreases |b|
  {
    if b == [] {
      assert a + b == a;
    } else {
      var b' := b[..|b| - 1];
      assert (a + b)[..|a + b| - 1] == a + b';
      assert (a + b)[|a + b| - 1] == b[|b| - 1];
      SubmittedAppend(a, b', name);
    }
  }

  /** The read-only rows shown for theme breakpoints that are not options: disabled, unnamed. */
  function ThemeInputs(theme: seq<ThemeBreakpoint>): (inputs: seq<Input>)
    ensures |inputs| <= GroupSize * |theme|
  {
    if theme == [] then []
    else
      var t := theme[|theme| - 1];
      ThemeInputs(theme[..|theme| - 1])
        + (if !t.option
           then [Input(None, t.identifier, true), Input(None, t.minWidth, true), Input(None, t.maxWidth, true)]
           else [])
  }

  /** Slot `i` of the form: stored record `i`, or an empty record when there is none. */
  function Slot(stored: seq<Breakpoint>, i: nat): Breakpoint {
    if i < |stored| then stored[i] else Breakpoint("", None, None)
  }

  function Slots(stored: seq<Breakpoint>): seq<Breakpoint> {
    seq(FormSlots, i requires 0 <= i < FormSlots => Slot(stored, i))
  }

  /** The values the untouched breakpoint form posts. */
  function FormValues(stored: seq<Breakpoint>): seq<string> {
    Flatten(Slots(stored))
  }

  /** The editable inputs for `values`, all named `dfw_breakpoints[]`. */
  function FieldInputs(values: seq<string>): (inputs: seq<Input>)
    ensures |inputs| == |values|
  {
    seq(|values|, k requires 0 <= k < |values| => Input(Some(BreakpointsField), values[k], false))
  }

  /** `dfw_breakpoints_input`: theme rows first, then exactly five editable slots. */
  method BreakpointsInput(theme: seq<ThemeBreakpoint>, stored: seq<Breakpoint>) returns (inputs: seq<Input>)
    ensures inputs == ThemeInputs(theme) + FieldInputs(FormValues(stored))
  {
    inputs := [];
    for j := 0 to |theme|
      invariant inputs == ThemeInputs(theme[..j])
    {
      var t := theme[j];
      ThemeStep(theme, j);
      if !t.option {
        inputs := inputs + [Input(None, t.identifier, true), Input(None, t.minWidth, true), Input(None, t.maxWidth, true)];
      }
    }
    assert theme[..|theme|] == theme;
    ghost var themed := inputs;
    var i := 0;
    while i < FormSlots
      invariant 0 <= i <= FormSlots
      invariant inputs == themed + FieldInputs(Flatten(Slots(stored)[..i]))
    {
      var identifier := if i < |stored| then stored[i].identifier else "";
      var minWidth := if i < |stored| && stored[i].minWidth.Some? then stored[i].minWidth.value else "";
      var maxWidth := if i < |stored| && stored[i].maxWidth.Some? then stored[i].maxWidth.value else "";
      var row := [Input(Some(BreakpointsField), identifier, false),
                  Input(Some(BreakpointsField), minWidth, false),
                  Input(Some(BreakpointsField), maxWidth, false)];
      FormSlotStep(stored, i, row);
      inputs := inputs + row;
      i := i + 1;
    }
    assert Slots(stored)[..FormSlots] == Slots(stored);
  }

  lemma ThemeStep(theme: seq<ThemeBreakpoint>, j: nat)
    requires j < |theme|
    ensures var t := theme[j];
            ThemeInputs(theme[..j + 1])
            == ThemeInputs(theme[..j])
               + if !t.option
                 then [Input(None, t.identifier, true), Input(None, t.minWidth, true), Input(None, t.maxWidth, true)]
                 else []
  {
    assert theme[..j + 1][..j] == theme[..j];
  }

  /** One pass of the five-slot loop appends slot `i`'s three named inputs. */
  lemma FormSlotStep(stored: seq<Breakpoint>, i: nat, row: seq<Input>)
    requires i < FormSlots
    requires row == [Input(Some(BreakpointsField), if i < |stored| then stored[i].identifier else "", false),
                     Input(Some(BreakpointsField), if i < |stored| && stored[i].minWidth.Some? then stored[i].minWidth.value else "", false),
                     Input(Some(BreakpointsField), if i < |stored| && stored[i].maxWidth.Some? then stored[i].maxWidth.value else "", false)]
    ensures FieldInputs(Flatten(Slots(stored)[..i + 1])) == FieldInputs(Flatten(Slots(stored)[..i])) + row
  {
    assert row == FieldInputs(PostedSlot(Slot(stored, i)));
    var slots := Slots(stored);
    assert slots[..i + 1] == slots[..i] + [slots[i]];
    FlattenAppend(slots[..i], [slots[i]]);
    assert [slots[i]][..0] == [];
    FieldInputsAppend(Flatten(slots[..i]), PostedSlot(slots[i]));
  }

  lemma FieldInputsAppend(a: seq<string>, b: seq<string>)
    ensures FieldInputs(a + b) == FieldInputs(a) + FieldInputs(b)
  {
  }

  lemma SubmittedFieldInputs(values: seq<string>)
    ensures Submitted(FieldInputs(values), BreakpointsField) == values
    decreases |values|
  {
    if values != [] {
      var n := |values| - 1;
      assert FieldInputs(values)[..n] == FieldInputs(values[..n]);
      SubmittedFieldInputs(values[..n]);
    }
  }

  /** The theme's rows are all disabled and unnamed. */
  lemma {:induction false} ThemeInputsReadOnly(theme: seq<ThemeBreakpoint>)
    ensures forall x :: x in ThemeInputs(theme) ==> x.disabled && x.name.None?
    decreases |theme|
  {
    if theme != [] {
      ThemeInputsReadOnly(theme[..|theme| - 1]);
    }
  }

  /** Disabled inputs are never posted. */
  lemma {:induction false} SubmittedDisabled(inputs: seq<Input>, name: string)
    requires forall x :: x in inputs ==> x.disabled
    ensures Submitted(inputs, name) == []
    decreases |inputs|
  {
    if inputs != [] {
      var n := |inputs| - 1;
      assert inputs[n] in inputs;
      assert forall x :: x in inputs[..n] ==> x in inputs;
      SubmittedDisabled(inputs[..n], name);
    }
  }

  /** Of everything the breakpoint form renders, exactly its editable slot values are posted. */
  lemma FormPosts(theme: seq<ThemeBreakpoint>, stored: seq<Breakpoint>)
    ensures Submitted(ThemeInputs(theme) + FieldInputs(FormValues(stored)), BreakpointsField) == FormValues(stored)
  {
    var rows, values := ThemeInputs(theme), FormValues(stored);
    calc {
      Submitted(rows + FieldInputs(values), BreakpointsField);
    == { SubmittedAppend(rows, FieldInputs(values), BreakpointsField); }
      Submitted(rows, BreakpointsField) + Submitted(FieldInputs(values), BreakpointsField);
    == { ThemeInputsReadOnly(theme); SubmittedDisabled(rows, BreakpointsField); }
      [] + Submitted(FieldInputs(values), BreakpointsField);
    == { SubmittedFieldInputs(values); }
      [] + values;
    }
    assert [] + values == values;
  }

  /**
   * The form posts exactly 15 values: slot `i` carries stored record `i`'s fields,
   * or '' where the record or the field is absent.
   */
  lemma FormSlotValues(stored: seq<Breakpoint>, i: nat)
    requires i < FormSlots
    ensures |FormValues(stored)| == GroupSize * FormSlots
    ensures FormValues(stored)[GroupSize * i] == (if i < |stored| then stored[i].identifier else "")
    ensures FormValues(stored)[GroupSize * i + 1] == (if i < |stored| then stored[i].minWidth.GetOr("") else "")
    ensures FormValues(stored)[GroupSize * i + 2] == (if i < |stored| then stored[i].maxWidth.GetOr("") else "")
  {
    var slots := Slots(stored);
    assert slots == slots[..i] + [slots[i]] + slots[i + 1..];
    FlattenAppend(slots[..i] + [slots[i]], slots[i + 1..]);
    FlattenAppend(slots[..i], [slots[i]]);
    assert [slots[i]][..0] == [];
  }

  /**
   * Saving the untouched form reproduces the first five stored records with truthy
   * identifiers (absent widths become ''), in order; records beyond the fifth are dropped.
   */
  lemma FormRoundTrip(stored: seq<Breakpoint>)
    ensures SavedRecords(FormValues(stored)) == Resaved(stored[..if |stored| < FormSlots then |stored| else FormSlots])
  {
    var m := if |stored| < FormSlots then |stored| else FormSlots;
    var slots := Slots(stored);
    SlotsSplit(stored);
    assert slots == slots[..m] + slots[m..];
    SaveFlattened(slots);
    ResavedAppend(stored[..m], slots[m..]);
    ResavedBlank(slots[m..]);
  }

  lemma SlotsSplit(stored: seq<Breakpoint>)
    ensures var m := if |stored| < FormSlots then |stored| else FormSlots;
            Slots(stored)[..m] == stored[..m] && forall b :: b in Slots(stored)[m..] ==> b.identifier == ""
  {
  }

  lemma {:induction false} ResavedBlank(bps: seq<Breakpoint>)
    requires forall b :: b in bps ==> b.identifier == ""
    ensures Resaved(bps) == []
    decreases |bps|
  {
    if bps != [] {
      var n := |bps| - 1;
      assert forall b :: b in bps[..n] ==> b in bps;
      assert bps[n] in bps;
      ResavedBlank(bps[..n]);
    }
  }

  /** Stored records that a save of whole slots produced come back unchanged, up to five. */
  lemma FormRoundTripOfSaved(value: seq<string>)
    requires |value| % GroupSize == 0
    ensures var stored := SavedRecords(value);
            SavedRecords(FormValues(stored)) == stored[..if |stored| < FormSlots then |stored| else FormSlots]
  {
    var stored := SavedRecords(value);
    var m := if |stored| < FormSlots then |stored| else FormSlots;
    ArrayChunkWhole(value);
    KeptRecordsOfWholeGroups(ArrayChunk(value));
    FormRoundTrip(stored);
    assert forall b :: b in stored[..m] ==> b in stored;
    ResavedIdentity(stored[..m]);
  }

  // ---------------------------------------------------------------------------
  // dfw_network_code_input

  /**
   * `dfw_network_code_input`: a network code set by the theme wins; its field is shown
   * suffixed, disabled and unnamed so nothing is posted. Otherwise the stored option is
   * shown and posted ('' when the option was never saved).
   */
  function NetworkCodeInput(themeCode: Option<string>, storedCode: Option<string>): (input: Input)
    ensures themeCode.Some? ==> input.value == themeCode.value + SetInThemeSuffix && input.disabled
    ensures themeCode.None? ==> input.value == storedCode.GetOr("") && !input.disabled
    ensures Submitted([input], NetworkCodeField) == if themeCode.Some? then [] else [storedCode.GetOr("")]
  {
    assert [Input(None, "", true)][..0] == [];
    match themeCode
    case Some(code) => Input(None, code + SetInThemeSuffix, true)
    case None => Input(Some(NetworkCodeField), storedCode.GetOr(""), false)
  }

  // ---------------------------------------------------------------------------
  // Examples

  /** An empty post saves no breakpoints. */
  lemma SaveEmpty()
    ensures SavedRecords([]) == []
  {
  }

  lemma SaveExampleOneSlot()
    ensures SavedRecords(["phone", "0", "480", "", "", ""]) == [Breakpoint("phone", Some("0"), Some("480"))]
  {
    var phone, blank := ["phone", "0", "480"], ["", "", ""];
    assert SavedRecords(phone) == [Breakpoint("phone", Some("0"), Some("480"))] by {
      SavedSlot("phone", "0", "480");
    }
    assert SavedRecords(blank) == [] by {
      SavedSlot("", "", "");
    }
    assert phone + blank == ["phone", "0", "480", "", "", ""];
    SavedRecordsAppend(phone, blank);
  }

  lemma SaveExampleTwoSlots()
    ensures SavedRecords(["a", "1", "2", "b", "3", "4"])
         == [Breakpoint("a", Some("1"), Some("2")), Breakpoint("b", Some("3"), Some("4"))]
  {
    SavedRecordsAppend(["a", "1", "2"], ["b", "3", "4"]);
    SavedSlot("a", "1", "2");
    SavedSlot("b", "3", "4");
    assert ["a", "1", "2"] + ["b", "3", "4"] == ["a", "1", "2", "b", "3", "4"];
  }

  /** A "0" identifier drops its slot; a short trailing group is kept with a null max-width. */
  lemma SaveExampleShortGroup()
    ensures SavedRecords(["0", "1", "2", "c", "5"]) == [Breakpoint("c", Some("5"), None)]
  {
    SavedRecordsAppend(["0", "1", "2"], ["c", "5"]);
    SavedSlot("0", "1", "2");
    SavedShortGroup("c", ["5"]);
    assert ["0", "1", "2"] + ["c", "5"] == ["0", "1", "2", "c", "5"];
  }
}
