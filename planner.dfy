/** The editorial planner's draft list: drag-and-drop reordering, removing and editing a
    draft, toggling a draft's platforms, and turning the drafts into saved posts (with the
    rule that a "scheduled" post whose date is missing, invalid or past is saved as a draft). */
module Planner {
  import opened Wrappers
  import opened Domain
  import Seqs
  import Text
  import JsDate

  datatype PostFormat = PlainPost | Reels | Story

  /** A draft in the batch being planned. */
  datatype DraftPost = DraftPost(
    tempId: int,
    title: string,
    content: string,
    image: Option<string>,
    date: string,
    time: string,
    platforms: seq<SocialPlatform>,
    format: PostFormat,
    isGenerating: bool,
    isRegeneratingTopic: bool,
    extraInstruction: Option<string>)

  /** One field of a draft together with a value for it: the `(field, value)` pair that
      `updateDraft` receives. */
  datatype DraftUpdate =
    | SetTempId(tempId: int)
    | SetTitle(title: string)
    | SetContent(content: string)
    | SetImage(image: Option<string>)
    | SetDate(date: string)
    | SetTime(time: string)
    | SetPlatforms(platforms: seq<SocialPlatform>)
    | SetFormat(format: PostFormat)
    | SetGenerating(isGenerating: bool)
    | SetRegeneratingTopic(isRegeneratingTopic: bool)
    | SetExtraInstruction(extraInstruction: Option<string>)

  /** Whether two updates name the same field. */
  predicate SameField(u: DraftUpdate, v: DraftUpdate) {
    match u
    case SetTempId(_) => v.SetTempId?
    case SetTitle(_) => v.SetTitle?
    case SetContent(_) => v.SetContent?
    case SetImage(_) => v.SetImage?
    case SetDate(_) => v.SetDate?
    case SetTime(_) => v.SetTime?
    case SetPlatforms(_) => v.SetPlatforms?
    case SetFormat(_) => v.SetFormat?
    case SetGenerating(_) => v.SetGenerating?
    case SetRegeneratingTopic(_) => v.SetRegeneratingTopic?
    case SetExtraInstruction(_) => v.SetExtraInstruction?
  }

  /** The current value of the field that `field` names, in the same shape. */
  function Read(d: DraftPost, field: DraftUpdate): (r: DraftUpdate)
    ensures SameField(field, r)
  {
    match field
    case SetTempId(_) => SetTempId(d.tempId)
    case SetTitle(_) => SetTitle(d.title)
    case SetContent(_) => SetContent(d.content)
    case SetImage(_) => SetImage(d.image)
    case SetDate(_) => SetDate(d.date)
    case SetTime(_) => SetTime(d.time)
    case SetPlatforms(_) => SetPlatforms(d.platforms)
    case SetFormat(_) => SetFormat(d.format)
    case SetGenerating(_) => SetGenerating(d.isGenerating)
    case SetRegeneratingTopic(_) => SetRegeneratingTopic(d.isRegeneratingTopic)
    case SetExtraInstruction(_) => SetExtraInstruction(d.extraInstruction)
  }

  /** Two drafts that agree on every field are the same draft. */
  lemma {:induction false} FieldsDetermineDraft(a: DraftPost, b: DraftPost)
    requires forall f :: Read(a, f) == Read(b, f)
    ensures a == b
  {
    assert Read(a, SetTempId(0)) == Read(b, SetTempId(0));
    assert Read(a, SetTitle("")) == Read(b, SetTitle(""));
    assert Read(a, SetContent("")) == Read(b, SetContent(""));
    assert Read(a, SetImage(None)) == Read(b, SetImage(None));
    assert Read(a, SetDate("")) == Read(b, SetDate(""));
    assert Read(a, SetTime("")) == Read(b, SetTime(""));
    assert Read(a, SetPlatforms([])) == Read(b, SetPlatforms([]));
    assert Read(a, SetFormat(PlainPost)) == Read(b, SetFormat(PlainPost));
    assert Read(a, SetGenerating(false)) == Read(b, SetGenerating(false));
    assert Read(a, SetRegeneratingTopic(false)) == Read(b, SetRegeneratingTopic(false));
    assert Read(a, SetExtraInstruction(None)) == Read(b, SetExtraInstruction(None));
  }

  /** `{ ...d, [field]: value }`: the named field takes the new value, every other field keeps its own. */
  function Apply(d: DraftPost, u: DraftUpdate): (r: DraftPost)
    ensures Read(r, u) == u
    ensures forall f | !SameField(u, f) :: Read(r, f) == Read(d, f)
  {
    match u
    case SetTempId(x) => d.(tempId := x)
    case SetTitle(x) => d.(title := x)
    case SetContent(x) => d.(content := x)
    case SetImage(x) => d.(image := x)
    case SetDate(x) => d.(date := x)
    case SetTime(x) => d.(time := x)
    case SetPlatforms(x) => d.(platforms := x)
    case SetFormat(x) => d.(format := x)
    case SetGenerating(x) => d.(isGenerating := x)
    case SetRegeneratingTopic(x) => d.(isRegeneratingTopic := x)
    case SetExtraInstruction(x) => d.(extraInstruction := x)
  }

  /** `updateDraft(index, field, value)`: only draft `index` changes, and in it only the named field. */
  function UpdateDraft(drafts: seq<DraftPost>, index: nat, u: DraftUpdate): (r: seq<DraftPost>)
    requires index < |drafts|
    ensures |r| == |drafts|
    ensures Read(r[index], u) == u
    ensures forall f | !SameField(u, f) :: Read(r[index], f) == Read(drafts[index], f)
    ensures forall j | 0 <= j < |drafts| && j != index :: r[j] == drafts[j]
  {
    drafts[index := Apply(drafts[index], u)]
  }

  /** Updating a field with the value it already has changes nothing. */
  lemma UpdateWithSameValue(drafts: seq<DraftPost>, index: nat, f: DraftUpdate)
    requires index < |drafts|
    ensures UpdateDraft(drafts, index, Read(drafts[index], f)) == drafts
  {
    var u := Read(drafts[index], f);
    var r := UpdateDraft(drafts, index, u);
    forall g ensures Read(r[index], g) == Read(drafts[index], g) {
      if SameField(u, g) {
        assert Read(r[index], g) == Read(r[index], u) by { SameFieldRead(r[index], u, g); }
        SameFieldRead(drafts[index], u, g);
      }
    }
    FieldsDetermineDraft(r[index], drafts[index]);
    assert r == drafts;
  }

  /** Reading through either of two updates that name the same field gives the same answer. */
  lemma SameFieldRead(d: DraftPost, u: DraftUpdate, v: DraftUpdate)
    requires SameField(u, v)
    ensures Read(d, u) == Read(d, v)
  {
  }

  /** `drafts.filter((_, i) => i !== index)` over the positions `offset`, `offset + 1`, ... */
  function DropPosition(s: seq<DraftPost>, index: int, offset: int): seq<DraftPost>
  {
    if s == [] then []
    else (if offset == index then [] else [s[0]]) + DropPosition(s[1..], index, offset + 1)
  }

  /** `removeDraft(index)`: the draft at `index` is gone and the others keep their order; an
      index that addresses no draft changes nothing. */
  function RemoveDraft(drafts: seq<DraftPost>, index: int): (r: seq<DraftPost>)
    ensures 0 <= index < |drafts| ==> r == drafts[..index] + drafts[index + 1..]
    ensures !(0 <= index < |drafts|) ==> r == drafts
  {
    DropPositionSlices(drafts, index, 0);
    DropPosition(drafts, index, 0)
  }

  lemma {:induction false} DropPositionSlices(s: seq<DraftPost>, index: int, offset: int)
    ensures DropPosition(s, index, offset) ==
              if offset <= index < offset + |s| then s[..index - offset] + s[index - offset + 1..] else s
  {
    if s != [] {
      DropPositionSlices(s[1..], index, offset + 1);
      if offset == index {
        assert s[..0] + s[1..] == s[1..];
      } else if offset < index < offset + |s| {
        assert [s[0]] + (s[1..][..index - offset - 1] + s[1..][index - offset..]) ==
               s[..index - offset] + s[index - offset + 1..];
      } else {
        assert [s[0]] + s[1..] == s;
      }
    }
  }

  /** Removing a draft removes exactly the one at `index` (nothing when `index` is out of range)
      and keeps the others in their original order. */
  lemma RemoveDraftSpec(drafts: seq<DraftPost>, index: int)
    ensures 0 <= index < |drafts| ==> RemoveDraft(drafts, index) == drafts[..index] + drafts[index + 1..]
    ensures 0 <= index < |drafts| ==> multiset(RemoveDraft(drafts, index)) + multiset{drafts[index]} == multiset(drafts)
    ensures !(0 <= index < |drafts|) ==> RemoveDraft(drafts, index) == drafts
  {
    DropPositionSlices(drafts, index, 0);
    if 0 <= index < |drafts| {
      assert drafts == drafts[..index] + [drafts[index]] + drafts[index + 1..];
    }
  }

  /** The draft list after dragging the draft at `from` and dropping it at `to`:
      `splice(from, 1)` followed by `splice(to, 0, removed)`. */
  function Moved(drafts: seq<DraftPost>, from: nat, to: nat): (r: seq<DraftPost>)
    requires from < |drafts| && to < |drafts|
    ensures |r| == |drafts| && r[to] == drafts[from]
  {
    RemoveDraftSpec(drafts, from);
    var rest := RemoveDraft(drafts, from);
    rest[..to] + [drafts[from]] + rest[to..]
  }

  /** A move keeps the length and the multiset of drafts, puts the moved draft at `to`, and
      leaves the other drafts in their original relative order. */
  lemma MovedSpec(drafts: seq<DraftPost>, from: nat, to: nat)
    requires from < |drafts| && to < |drafts|
    ensures |Moved(drafts, from, to)| == |drafts|
    ensures multiset(Moved(drafts, from, to)) == multiset(drafts)
    ensures Moved(drafts, from, to)[to] == drafts[from]
    ensures RemoveDraft(Moved(drafts, from, to), to) == RemoveDraft(drafts, from)
  {
    RemoveDraftSpec(drafts, from);
    var rest := RemoveDraft(drafts, from);
    var m := Moved(drafts, from, to);
    assert rest == rest[..to] + rest[to..];
    RemoveDraftSpec(m, to);
    assert m[..to] == rest[..to];
    assert m[to + 1..] == rest[to..];
  }

  /** Moving a draft to where it already is changes nothing. */
  lemma MovedInPlace(drafts: seq<DraftPost>, i: nat)
    requires i < |drafts|
    ensures Moved(drafts, i, i) == drafts
  {
    RemoveDraftSpec(drafts, i);
    var rest := RemoveDraft(drafts, i);
    assert rest[..i] == drafts[..i];
    assert rest[i..] == drafts[i + 1..];
    assert drafts == drafts[..i] + [drafts[i]] + drafts[i + 1..];
  }

  /** `handleDrop(e, dropIndex)`: nothing happens when no draft is being dragged or it is dropped
      where it was; otherwise the copy of the list is spliced in place (the dragged draft taken
      out, the tail shifted left; then the tail from `dropIndex` shifted right and the draft put
      at `dropIndex`) and the drag state is cleared. */
  method HandleDrop(drafts: seq<DraftPost>, dragged: Option<nat>, dropIndex: nat)
    returns (r: seq<DraftPost>, draggedAfter: Option<nat>)
    requires dragged.Some? ==> dragged.value < |drafts|
    requires dropIndex < |drafts|
    ensures dragged.None? || dragged.value == dropIndex ==> r == drafts && draggedAfter == dragged
    ensures dragged.Some? && dragged.value != dropIndex ==>
              r == Moved(drafts, dragged.value, dropIndex) && draggedAfter.None?
  {
    if dragged.None? || dragged.value == dropIndex {
      return drafts, dragged;
    }
    var from := dragged.value;
    var n := |drafts|;
    var a := new DraftPost[n](i requires 0 <= i < n => drafts[i]);
    assert a[..] == drafts;
    var removed := a[from];
    CloseGap(a, from);
    ghost var rest := a[..n - 1];
    assert rest == drafts[..from] + drafts[from + 1..];
    OpenGap(a, dropIndex);
    ghost var left := a[..dropIndex];
    ghost var right := a[dropIndex + 1..];
    assert left == rest[..dropIndex] && right == rest[dropIndex..];
    a[dropIndex] := removed;
    assert a[..] == left + [removed] + right;
    SplicesMove(drafts, from, dropIndex, rest);
    r := a[..];
    draggedAfter := None;
  }

  /** Taking the draft at `from` out and putting it back at `to` is `Moved`. */
  lemma SplicesMove(drafts: seq<DraftPost>, from: nat, to: nat, rest: seq<DraftPost>)
    requires from < |drafts| && to < |drafts|
    requires rest == drafts[..from] + drafts[from + 1..]
    ensures rest[..to] + [drafts[from]] + rest[to..] == Moved(drafts, from, to)
  {
    RemoveDraftSpec(drafts, from);
  }

  /** The shifting half of `splice(from, 1)` on a buffer of fixed length: every element after
      `from` moves one place to the left; the last slot keeps its old value. */
  method CloseGap<T>(a: array<T>, from: nat)
    requires from < a.Length
    modifies a
    ensures a[..a.Length - 1] == old(a[..from]) + old(a[from + 1..])
    ensures a[a.Length - 1] == old(a[a.Length - 1])
  {
    var k := from;
    while k < a.Length - 1
      invariant from <= k <= a.Length - 1
      invariant forall j | 0 <= j < from :: a[j] == old(a[j])
      invariant forall j | from <= j < k :: a[j] == old(a[j + 1])
      invariant forall j | k <= j < a.Length :: a[j] == old(a[j])
    {
      a[k] := a[k + 1];
      k := k + 1;
    }
    assert a[..a.Length - 1] == old(a[..from]) + old(a[from + 1..]) by {
      assert forall j | from <= j < a.Length - 1 :: a[j] == old(a[from + 1..])[j - from];
    }
  }

  /** The shifting half of `splice(to, 0, x)` on a buffer of fixed length: every element from
      `to` on moves one place to the right (the last one falls off); slot `to` is left for `x`. */
  method OpenGap<T>(a: array<T>, to: nat)
    requires to < a.Length
    modifies a
    ensures a[..to] == old(a[..to]) && a[to + 1..] == old(a[to..a.Length - 1])
  {
    var k := a.Length - 1;
    while k > to
      invariant to <= k <= a.Length - 1
      invariant forall j | 0 <= j <= k :: a[j] == old(a[j])
      invariant forall j | k < j < a.Length :: a[j] == old(a[j - 1])
    {
      a[k] := a[k - 1];
      k := k - 1;
    }
    assert a[to + 1..] == old(a[to..a.Length - 1]) by {
      assert forall j | to + 1 <= j < a.Length :: a[j] == old(a[to..a.Length - 1])[j - to - 1];
    }
  }

  /** `togglePlatform(index, platform)`: on a copy of the draft's platforms, remove the platform
      if present, otherwise push it; then store the copy through `updateDraft`. */
  method TogglePlatform(drafts: seq<DraftPost>, index: nat, platform: SocialPlatform) returns (r: seq<DraftPost>)
    requires index < |drafts|
    ensures |r| == |drafts|
    ensures r[index].platforms == Seqs.Toggle(drafts[index].platforms, platform)
    ensures forall f: DraftUpdate | !f.SetPlatforms? :: Read(r[index], f) == Read(drafts[index], f)
    ensures forall j | 0 <= j < |drafts| && j != index :: r[j] == drafts[j]
  {
    var newPlatforms := drafts[index].platforms;
    if platform in newPlatforms {
      newPlatforms := Seqs.Without(newPlatforms, platform);
    } else {
      newPlatforms := newPlatforms + [platform];
    }
    r := UpdateDraft(drafts, index, SetPlatforms(newPlatforms));
  }

  // ---- saving the batch ----

  /** The arguments of `new Date(year, month, day, hours, minutes)`; the month counts from 0. */
  datatype DateParts = DateParts(year: int, month: int, day: int, hours: int, minutes: int)

  /** `parseInt` of the `k`-th piece of `s.split(sep)`; a missing piece is `undefined`, which
      `parseInt` reads as `NaN`. */
  function ParsePart(s: string, sep: char, k: nat): Option<int>
  {
    match Text.SplitPart(s, sep, k)
    case None => None
    case Some(p) => Text.ParseInt(p)
  }

  /** The numbers handed to `new Date(y, m - 1, d, h, min)`, read from a `YYYY-MM-DD` date and
      an `HH:MM` time; `None` when one of them is `NaN`. An empty date has no numbers. */
  function DateTimeParts(date: string, time: string): (r: Option<DateParts>)
    ensures date == "" ==> r.None?
  {
    FromFields(ParsePart(date, '-', 0), ParsePart(date, '-', 1), ParsePart(date, '-', 2),
               ParsePart(time, ':', 0), ParsePart(time, ':', 1))
  }

  /** The arguments of `new Date` from the five numbers read: `None` when one of them is `NaN`,
      otherwise the numbers in order with the month less one. */
  function FromFields(y: Option<int>, m: Option<int>, day: Option<int>, h: Option<int>, min: Option<int>): (r: Option<DateParts>)
    ensures r.Some? <==> y.Some? && m.Some? && day.Some? && h.Some? && min.Some?
    ensures r.Some? ==> r.value == DateParts(y.value, m.value - 1, day.value, h.value, min.value)
  {
    if y.None? || m.None? || day.None? || h.None? || min.None? then None
    else Some(DateParts(y.value, m.value - 1, day.value, h.value, min.value))
  }

  /** The draft's time, `10:00` when it is empty. */
  function DraftClockTime(d: DraftPost): (r: string)
    ensures r != ""
    ensures d.time != "" ==> r == d.time
  {
    if d.time == "" then "10:00" else d.time
  }

  /** The date and time numbers of a draft. */
  function DraftDateParts(d: DraftPost): (r: Option<DateParts>)
    ensures d.date == "" ==> r.None?
  {
    DateTimeParts(d.date, DraftClockTime(d))
  }

  /** The local date and time a draft is saved for: `None` when it is an Invalid Date. */
  function DraftTime(d: DraftPost, clock: JsDate.Clock): (r: Option<int>)
    ensures d.date == "" ==> r.None?
    ensures r.Some? ==> -JsDate.MaxTimeValue <= r.value <= JsDate.MaxTimeValue
  {
    match DraftDateParts(d)
    case None => None
    case Some(p) => JsDate.LocalDate(p.year, p.month, p.day, p.hours, p.minutes, clock)
  }

  /** `Y-M-D` text splits on `-` into its three fields, and `H:MIN` on `:` into its two. */
  lemma FieldsSplit(ys: string, ms: string, ds: string, hs: string, mins: string)
    requires '-' !in ys && '-' !in ms && '-' !in ds && ':' !in hs && ':' !in mins
    ensures Text.Split(ys + "-" + ms + "-" + ds, '-') == [ys, ms, ds]
    ensures Text.Split(hs + ":" + mins, ':') == [hs, mins]
  {
    assert [ys, ms, ds][1..] == [ms, ds] && [ms, ds][1..] == [ds];
    assert Text.Join([ms, ds], "-") == ms + "-" + ds;
    assert Text.Join([ys, ms, ds], "-") == ys + "-" + ms + "-" + ds;
    Text.SplitJoin([ys, ms, ds], '-');
    assert Text.Join([hs, mins], ":") == hs + ":" + mins;
    Text.SplitJoin([hs, mins], ':');
  }

  /** A date that splits into three runs of decimal digits and a time that splits into two give
      `new Date(Y, M - 1, D, H, MIN)` for the numbers `Y`, `M`, `D`, `H`, `MIN` the runs denote,
      whatever the number of digits in each. */
  lemma DateTimeOfDigits(date: string, time: string, ys: string, ms: string, ds: string, hs: string, mins: string,
                         y: int, m: int, day: int, h: int, min: int)
    requires Text.Split(date, '-') == [ys, ms, ds] && Text.Split(time, ':') == [hs, mins]
    requires Text.IsDecimal(ys) && Text.IsDecimal(ms) && Text.IsDecimal(ds)
    requires Text.IsDecimal(hs) && Text.IsDecimal(mins)
    requires y == Text.DigitsValue(ys, 10) && m == Text.DigitsValue(ms, 10) && day == Text.DigitsValue(ds, 10)
    requires h == Text.DigitsValue(hs, 10) && min == Text.DigitsValue(mins, 10)
    ensures DateTimeParts(date, time) == Some(DateParts(y, m - 1, day, h, min))
  {
    FieldRead(date, '-', 0, ys);
    FieldRead(date, '-', 1, ms);
    FieldRead(date, '-', 2, ds);
    FieldRead(time, ':', 0, hs);
    FieldRead(time, ':', 1, mins);
    PartsRead(date, time, y, m, day, h, min);
  }

  /** The five fields are read independently, each by `parseInt` of its piece. */
  lemma ReadsFields(date: string, time: string)
    ensures DateTimeParts(date, time) ==
              FromFields(ParsePart(date, '-', 0), ParsePart(date, '-', 1), ParsePart(date, '-', 2),
                         ParsePart(time, ':', 0), ParsePart(time, ':', 1))
  {
  }

  /** A piece made of decimal digits reads as the number it denotes. */
  lemma FieldRead(s: string, sep: char, k: nat, piece: string)
    requires k < |Text.Split(s, sep)| && Text.Split(s, sep)[k] == piece && Text.IsDecimal(piece)
    ensures ParsePart(s, sep, k) == Some(Text.DigitsValue(piece, 10))
  {
    Text.ParseIntOfDigits(piece);
  }

  /** Five fields that read as numbers give those numbers, the month less one. */
  lemma PartsRead(date: string, time: string, y: int, m: int, day: int, h: int, min: int)
    requires ParsePart(date, '-', 0) == Some(y) && ParsePart(date, '-', 1) == Some(m)
    requires ParsePart(date, '-', 2) == Some(day)
    requires ParsePart(time, ':', 0) == Some(h) && ParsePart(time, ':', 1) == Some(min)
    ensures DateTimeParts(date, time) == Some(DateParts(y, m - 1, day, h, min))
  {
    ReadsFields(date, time);
    FromNumbers(y, m, day, h, min);
  }

  /** Five numbers give `new Date` its arguments, the month less one. */
  lemma FromNumbers(y: int, m: int, day: int, h: int, min: int)
    ensures FromFields(Some(y), Some(m), Some(day), Some(h), Some(min)) == Some(DateParts(y, m - 1, day, h, min))
  {
  }

  /** A draft with a well-formed `Y-M-D` date and `H:MIN` time, or no time (read as 10:00), has
      the numbers `Y`, `M - 1`, `D`, `H`, `MIN` for `new Date`. */
  lemma DraftDateOfDigits(d: DraftPost, ys: string, ms: string, ds: string, hs: string, mins: string,
                          y: int, m: int, day: int, h: int, min: int)
    requires Text.IsDecimal(ys) && Text.IsDecimal(ms) && Text.IsDecimal(ds)
    requires Text.IsDecimal(hs) && Text.IsDecimal(mins)
    requires y == Text.DigitsValue(ys, 10) && m == Text.DigitsValue(ms, 10) && day == Text.DigitsValue(ds, 10)
    requires h == Text.DigitsValue(hs, 10) && min == Text.DigitsValue(mins, 10)
    requires d.date == ys + "-" + ms + "-" + ds
    requires d.time == hs + ":" + mins || (d.time == "" && hs == "10" && mins == "00")
    ensures DraftDateParts(d) == Some(DateParts(y, m - 1, day, h, min))
  {
    assert '-' !in ys && '-' !in ms && '-' !in ds && ':' !in hs && ':' !in mins;
    FieldsSplit(ys, ms, ds, hs, mins);
    if d.time == "" {
      DefaultClockTime();
    }
    DateTimeOfDigits(d.date, DraftClockTime(d), ys, ms, ds, hs, mins, y, m, day, h, min);
  }

  /** Such a draft is saved for `new Date(Y, M - 1, D, H, MIN)` in the local zone. */
  lemma DraftTimeOfDigits(d: DraftPost, clock: JsDate.Clock, ys: string, ms: string, ds: string, hs: string, mins: string,
                          y: int, m: int, day: int, h: int, min: int)
    requires Text.IsDecimal(ys) && Text.IsDecimal(ms) && Text.IsDecimal(ds)
    requires Text.IsDecimal(hs) && Text.IsDecimal(mins)
    requires y == Text.DigitsValue(ys, 10) && m == Text.DigitsValue(ms, 10) && day == Text.DigitsValue(ds, 10)
    requires h == Text.DigitsValue(hs, 10) && min == Text.DigitsValue(mins, 10)
    requires d.date == ys + "-" + ms + "-" + ds
    requires d.time == hs + ":" + mins || (d.time == "" && hs == "10" && mins == "00")
    ensures DraftTime(d, clock) == JsDate.LocalDate(y, m - 1, day, h, min, clock)
  {
    DraftDateOfDigits(d, ys, ms, ds, hs, mins, y, m, day, h, min);
  }

  /** With no time given, the hour is 10 and the minute 0. */
  lemma DefaultClockTime()
    ensures "10" + ":" + "00" == "10:00"
    ensures Text.IsDecimal("10") && Text.IsDecimal("00")
    ensures Text.DigitsValue("10", 10) == 10 && Text.DigitsValue("00", 10) == 0
  {
  }

  /** The scheduled date and status a draft is saved with, for the status the user chose: the
      status is the chosen one or "draft", and a "scheduled" post is never in the past. */
  function Schedule(d: DraftPost, target: PostStatus, clock: JsDate.Clock): (r: (int, PostStatus))
    ensures r.1 == target || r.1 == Draft
    ensures r.1 == Scheduled ==> r.0 >= clock.now
    ensures r.0 == clock.now || DraftTime(d, clock) == Some(r.0)
    ensures d.date != "" && DraftTime(d, clock).Some? ==> r.0 == DraftTime(d, clock).value
  {
    var fallback := if target == Scheduled then Draft else target;
    if d.date == "" then (clock.now, fallback)
    else match DraftTime(d, clock)
      case None => (clock.now, fallback)
      case Some(t) => (t, if target == Scheduled && t < clock.now then Draft else target)
  }

  /** The status downgrade: only a "scheduled" target can change, and it becomes "draft" exactly
      when the date is empty, is an Invalid Date, or lies before now. */
  lemma {:induction false} ScheduleStatus(d: DraftPost, target: PostStatus, clock: JsDate.Clock)
    ensures target != Scheduled ==> Schedule(d, target, clock).1 == target
    ensures target == Scheduled ==>
              (Schedule(d, target, clock).1 == Draft <==>
                 d.date == "" || DraftTime(d, clock).None? || DraftTime(d, clock).value < clock.now)
    ensures target == Scheduled ==> Schedule(d, target, clock).1 in {Scheduled, Draft}
  {
  }

  /** A post is only ever saved as "scheduled" for a valid date that is not in the past, and then
      with that date; otherwise the date falls back to now. */
  lemma {:induction false} ScheduledPostsAreInTheFuture(d: DraftPost, target: PostStatus, clock: JsDate.Clock)
    ensures Schedule(d, target, clock).1 == Scheduled ==>
              d.date != "" && DraftTime(d, clock).Some? &&
              Schedule(d, target, clock).0 == DraftTime(d, clock).value >= clock.now
    ensures d.date == "" || DraftTime(d, clock).None? ==> Schedule(d, target, clock).0 == clock.now
  {
  }

  /** The post saved for one draft: defaults for an empty title, a missing image and an empty
      platform list, the batch's client, the planner as author, the date and status of
      `Schedule`. */
  function SavedPost(d: DraftPost, target: PostStatus, clientId: string, id: string, clock: JsDate.Clock): (p: Post)
    ensures p.id == id && p.clientId == clientId && p.author == "IA Planner"
    ensures p.scheduledDate == Schedule(d, target, clock).0 && p.status == Schedule(d, target, clock).1
  {
    var (when, status) := Schedule(d, target, clock);
    Post(
      id := id,
      clientId := clientId,
      title := if d.title == "" then "Post Sem Título" else d.title,
      content := d.content,
      image := if d.image.Some? then d.image.value else "",
      scheduledDate := when,
      status := status,
      platforms := if |d.platforms| > 0 then d.platforms else [Instagram],
      author := "IA Planner")
  }

  /** The defaults filled in at save time. */
  lemma SavedPostDefaults(d: DraftPost, target: PostStatus, clientId: string, id: string, clock: JsDate.Clock)
    ensures var p := SavedPost(d, target, clientId, id, clock);
      && p.title != ""
      && (d.title != "" ==> p.title == d.title)
      && (d.title == "" ==> p.title == "Post Sem Título")
      && (d.image.None? ==> p.image == "")
      && (d.image.Some? ==> p.image == d.image.value)
      && p.content == d.content
      && |p.platforms| > 0
      && (|d.platforms| > 0 ==> p.platforms == d.platforms)
      && (d.platforms == [] ==> p.platforms == [Instagram])
      && p.id == id && p.clientId == clientId && p.author == "IA Planner"
  {
  }

  /** The id of the `i`-th saved post: a time-and-random stamp followed by the index. */
  function PostId(stamp: string, i: nat): string
  {
    stamp + Text.NatToString(i)
  }

  /** Two posts of one batch never share an id when their stamps have the same length
      (the index suffix tells them apart). */
  lemma {:induction false} PostIdsDiffer(stamp1: string, stamp2: string, i: nat, j: nat)
    requires |stamp1| == |stamp2| && i != j
    ensures PostId(stamp1, i) != PostId(stamp2, j)
  {
    if PostId(stamp1, i) == PostId(stamp2, j) {
      var a := PostId(stamp1, i);
      assert a[|stamp1|..] == Text.NatToString(i);
      assert a[|stamp1|..] == Text.NatToString(j);
      Text.NatToStringInjective(i, j);
    }
  }

  /** `drafts.some(d => d.isGenerating)`. */
  predicate AnyGenerating(drafts: seq<DraftPost>) {
    exists i | 0 <= i < |drafts| :: drafts[i].isGenerating
  }

  /** The scan behind `drafts.some(d => d.isGenerating)`. */
  method IsBusy(drafts: seq<DraftPost>) returns (busy: bool)
    ensures busy <==> AnyGenerating(drafts)
  {
    busy := false;
    for i := 0 to |drafts|
      invariant busy <==> exists j | 0 <= j < i :: drafts[j].isGenerating
    {
      busy := busy || drafts[i].isGenerating;
    }
  }

  /** The sequential loop of `saveBatchPosts`: `build(draft, i)` makes the post for the i-th
      draft; the loop makes one post per draft, in list order. */
  method SaveEach(drafts: seq<DraftPost>, build: (DraftPost, nat) -> Post) returns (posts: seq<Post>)
    ensures |posts| == |drafts|
    ensures forall i | 0 <= i < |drafts| :: posts[i] == build(drafts[i], i)
  {
    posts := [];
    var i := 0;
    while i < |drafts|
      invariant 0 <= i <= |drafts|
      invariant |posts| == i
      invariant forall k | 0 <= k < i :: posts[k] == build(drafts[k], k)
    {
      posts := posts + [build(drafts[i], i)];
      i := i + 1;
    }
  }

  datatype SaveOutcome = SignedOut | Cancelled | NothingToSave | Saved(posts: seq<Post>)

  /** `saveBatchPosts(targetStatus)`: nothing without a signed-in user, nothing when captions are
      still being generated and the user does not confirm, nothing for an empty list; otherwise one
      post per draft, in list order. `stamp(i)` stands for the clock-and-random part of the i-th id.
      What the screen does after saving (back to the first step, no batch client, no drafts) is
      not modelled. */
  method SaveBatchPosts(
    drafts: seq<DraftPost>, target: PostStatus, batchClient: string, userId: string,
    confirmBusy: bool, clock: JsDate.Clock, stamp: nat -> string)
    returns (out: SaveOutcome)
    ensures userId == "" ==> out == SignedOut
    ensures userId != "" && AnyGenerating(drafts) && !confirmBusy ==> out == Cancelled
    ensures userId != "" && (!AnyGenerating(drafts) || confirmBusy) && drafts == [] ==> out == NothingToSave
    ensures out.Saved? <==> userId != "" && (!AnyGenerating(drafts) || confirmBusy) && drafts != []
    ensures out.Saved? ==> |out.posts| == |drafts|
    ensures out.Saved? ==> forall i | 0 <= i < |drafts| ::
              out.posts[i] == SavedPost(drafts[i], target, batchClient, PostId(stamp(i), i), clock)
  {
    if userId == "" {
      return SignedOut;
    }
    var isBusy := IsBusy(drafts);
    if isBusy && !confirmBusy {
      return Cancelled;
    }
    if |drafts| == 0 {
      return NothingToSave;
    }
    var posts := SaveEach(drafts, (d: DraftPost, i: nat) => SavedPost(d, target, batchClient, PostId(stamp(i), i), clock));
    out := Saved(posts);
  }
}
