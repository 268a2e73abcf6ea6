/**
  The reconciliation performed by OptionsForm.DetectScreens, stated on values.

  The live display list (Screen.AllScreens) is an input sequence. For each display, in
  order, the first record with the same device name is looked up; a found record whose
  geometry differs is patched through the four checked setters, a missing one is created
  with the least positive index not in use. A running bounding box, seeded at (0, 0), is
  grown over every display. When anything was patched or created, the aggregate "basic"
  record is set to that box through the same setters. A setter that rejects a value throws
  in the source; here it ends the pass with `ok == false` and the state reached so far.
*/
module Reconciliation {
  import opened Wrappers
  import opened SettingsDocument
  import opened Screens

  /** One entry of the live display list: its device name and bounds. */
  datatype Display = Display(deviceName: string, x: int, y: int, width: int, height: int)

  const DefaultOpacity: real := 0.3

  predicate Attached(name: string, live: seq<Display>) {
    exists d :: d in live && d.deviceName == name
  }

  predicate DistinctNames(live: seq<Display>) {
    forall i, j :: 0 <= i < j < |live| ==> live[i].deviceName != live[j].deviceName
  }

  predicate DisplayInRange(d: Display) {
    GeometryInRange(d.x, d.y, d.width, d.height)
  }

  predicate SameGeometry(r: Record, d: Display) {
    r.originX == d.x && r.originY == d.y && r.resX == d.width && r.resY == d.height
  }

  /** A record with its geometry erased: what no geometry setter can change. */
  function Settings(r: Record): Record {
    r.(originX := 0, originY := 0, resX := 0, resY := 0)
  }

  // ---------------------------------------------------------------------------
  // Index allocation

  function Indices(recs: seq<Record>): set<int> {
    set k | 0 <= k < |recs| :: recs[k].index
  }

  function Above(used: set<int>, n: int): set<int> {
    set k | k in used && k >= n
  }

  lemma AboveShrinks(used: set<int>, n: int)
    requires n in used
    ensures |Above(used, n + 1)| < |Above(used, n)|
  {
    assert Above(used, n + 1) == Above(used, n) - {n};
  }

  /** The least integer from n upwards that is not in `used`. */
  function LeastFreeFrom(used: set<int>, n: int): (r: int)
    ensures n <= r && r !in used
    ensures forall k :: n <= k < r ==> k in used
    decreases |Above(used, n)|
  {
    if n !in used then n
    else
      AboveShrinks(used, n);
      LeastFreeFrom(used, n + 1)
  }

  /** The index a new record gets: the smallest positive integer no record uses. */
  function LeastFreeIndex(recs: seq<Record>): (r: int)
    ensures 1 <= r && r !in Indices(recs)
    ensures forall k :: 1 <= k < r ==> k in Indices(recs)
  {
    LeastFreeFrom(Indices(recs), 1)
  }

  /** The least free index depends on the indices alone. */
  lemma SameIndicesSameLeast(a: seq<Record>, b: seq<Record>)
    requires |a| == |b|
    requires forall k :: 0 <= k < |a| ==> a[k].index == b[k].index
    ensures LeastFreeIndex(a) == LeastFreeIndex(b)
  {
    assert forall v :: v in Indices(a) ==> v in Indices(b) by {
      forall v | v in Indices(a) ensures v in Indices(b) {
        var k :| 0 <= k < |a| && a[k].index == v;
        assert b[k].index == v;
      }
    }
    assert forall v :: v in Indices(b) ==> v in Indices(a) by {
      forall v | v in Indices(b) ensures v in Indices(a) {
        var k :| 0 <= k < |b| && b[k].index == v;
        assert a[k].index == v;
      }
    }
    assert Indices(a) == Indices(b);
  }

  // ---------------------------------------------------------------------------
  // One display

  /** Position of the first record with the given name, or |recs| when there is none. */
  function Lookup(recs: seq<Record>, name: string): (k: nat)
    ensures k <= |recs|
    ensures k < |recs| ==> recs[k].name == name
    ensures forall i :: 0 <= i < k ==> recs[i].name != name
  {
    if |recs| == 0 then 0
    else if recs[0].name == name then 0
    else 1 + Lookup(recs[1..], name)
  }

  /** The record NewScreenInfo makes: DEFAULT_OPACITY, not shown, enabled only in separate-screen mode. */
  function NewRecord(d: Display, index: int, separate: bool): Record {
    Record(d.deviceName, index, d.x, d.y, d.width, d.height, ClampOpacity(DefaultOpacity), false, separate)
  }

  datatype Patched = Patched(record: Record, ok: bool)

  /**
    The setters OriginX, OriginY, ResolutionX, ResolutionY applied in that order; the first
    one that rejects its value stops the sequence with the earlier assignments in place.
  */
  function Patch(r: Record, x: int, y: int, w: int, h: int): (p: Patched)
    ensures p.ok <==> GeometryInRange(x, y, w, h)
    ensures p.ok ==> p.record == r.(originX := x, originY := y, resX := w, resY := h)
    ensures Settings(p.record) == Settings(r)
  {
    if !OriginXInRange(x) then Patched(r, false)
    else if !OriginYInRange(y) then Patched(r.(originX := x), false)
    else if !ResolutionInRange(w) then Patched(r.(originX := x, originY := y), false)
    else if !ResolutionInRange(h) then Patched(r.(originX := x, originY := y, resX := w), false)
    else Patched(r.(originX := x, originY := y, resX := w, resY := h), true)
  }

  /** Patch is the four checked setters run in order, each on the record the previous one left. */
  lemma PatchChainsSetters(r: Record, x: int, y: int, w: int, h: int)
    ensures Patch(r, x, y, w, h) ==
      match AssignOriginX(r, x)
      case Failure(_) => Patched(r, false)
      case Success(r1) =>
        match AssignOriginY(r1, y)
        case Failure(_) => Patched(r1, false)
        case Success(r2) =>
          match AssignResolutionX(r2, w)
          case Failure(_) => Patched(r2, false)
          case Success(r3) =>
            match AssignResolutionY(r3, h)
            case Failure(_) => Patched(r3, false)
            case Success(r4) => Patched(r4, true)
  {
  }

  /** A display that has no record yet, or whose first record holds other geometry. */
  predicate Stale(recs: seq<Record>, d: Display) {
    var k := Lookup(recs, d.deviceName);
    k == |recs| || !SameGeometry(recs[k], d)
  }

  datatype Placement = Placement(records: seq<Record>, changed: bool, ok: bool)

  /** The body of the outer foreach of DetectScreens up to (not including) the bounding box. */
  function Place(recs: seq<Record>, d: Display, separate: bool): Placement
  {
    var k := Lookup(recs, d.deviceName);
    if k < |recs| then
      if SameGeometry(recs[k], d) then Placement(recs, false, true)
      else
        var patched := Patch(recs[k], d.x, d.y, d.width, d.height);
        Placement(recs[k := patched.record], patched.ok, patched.ok)
    else
      var r := NewRecord(d, LeastFreeIndex(recs), separate);
      assert Lookup(recs + [r], d.deviceName) == |recs| by {
        var rs := recs + [r];
        assert forall i :: 0 <= i < |recs| ==> rs[i].name != d.deviceName by {
          forall i | 0 <= i < |recs| ensures rs[i].name != d.deviceName {
            assert rs[i] == recs[i];
          }
        }
        assert rs[|recs|].name == d.deviceName;
      }
      Placement(recs + [r], true, true)
  }

  /**
    What placing a display does: it is changed exactly when it completes on a stale display,
    it fails only on a patch out of range, it touches only the record with the display's
    name or appends a new one, keeps every record's settings, and leaves the display settled.
  */
  lemma PlaceFacts(recs: seq<Record>, d: Display, separate: bool)
    ensures var p := Place(recs, d, separate);
      && (p.changed <==> p.ok && Stale(recs, d))
      && (p.ok <==> !Stale(recs, d) || Lookup(recs, d.deviceName) == |recs| || DisplayInRange(d))
      && |p.records| == (if p.changed && Lookup(recs, d.deviceName) == |recs| then |recs| + 1 else |recs|)
      && (forall k :: 0 <= k < |recs| && recs[k].name != d.deviceName ==> p.records[k] == recs[k])
      && (|p.records| > |recs| ==> p.records[|recs|] == NewRecord(d, LeastFreeIndex(recs), separate))
      && (p.ok ==> !Stale(p.records, d))
      && (!p.changed && p.ok ==> p.records == recs)
      && (forall k :: 0 <= k < |recs| ==> Settings(p.records[k]) == Settings(recs[k]))
  {
    var p := Place(recs, d, separate);
    var k := Lookup(recs, d.deviceName);
    if k < |recs| && !SameGeometry(recs[k], d) {
      var patched := Patch(recs[k], d.x, d.y, d.width, d.height);
      assert p.records == recs[k := patched.record];
      assert forall i :: 0 <= i < |recs| ==> p.records[i].name == recs[i].name;
    }
  }

  // ---------------------------------------------------------------------------
  // The whole pass

  /** The running bounds basic_left, basic_up, basic_right, basic_down. */
  datatype Box = Box(left: int, up: int, right: int, down: int)

  const Seed: Box := Box(0, 0, 0, 0)

  function Extend(b: Box, d: Display): Box {
    Box(if b.left > d.x then d.x else b.left,
        if b.up > d.y then d.y else b.up,
        if b.right < d.x + d.width then d.x + d.width else b.right,
        if b.down < d.y + d.height then d.y + d.height else b.down)
  }

  function Enclose(b: Box, live: seq<Display>): Box
    decreases |live|
  {
    if |live| == 0 then b else Enclose(Extend(b, live[0]), live[1..])
  }

  /**
    The box grown over a display list is the least box that contains the start box's
    edges and every display: each edge is either the start edge or some display's edge.
  */
  lemma {:induction false} EncloseBounds(b: Box, live: seq<Display>)
    ensures var e := Enclose(b, live);
      && e.left <= b.left && e.up <= b.up && e.right >= b.right && e.down >= b.down
      && (forall d :: d in live ==> e.left <= d.x && e.up <= d.y && e.right >= d.x + d.width && e.down >= d.y + d.height)
      && (e.left == b.left || exists d :: d in live && e.left == d.x)
      && (e.up == b.up || exists d :: d in live && e.up == d.y)
      && (e.right == b.right || exists d :: d in live && e.right == d.x + d.width)
      && (e.down == b.down || exists d :: d in live && e.down == d.y + d.height)
    decreases |live|
  {
    if |live| > 0 {
      EncloseBounds(Extend(b, live[0]), live[1..]);
      assert forall d :: d in live ==> d == live[0] || d in live[1..];
      assert forall d :: d in live[1..] ==> d in live;
    }
  }

  datatype Scan = Scan(records: seq<Record>, dirty: bool, box: Box)

  datatype Step = Step(scan: Scan, ok: bool)

  function Visit(s: Scan, d: Display, separate: bool): Step {
    var p := Place(s.records, d, separate);
    if !p.ok then Step(s.(records := p.records), false)
    else Step(Scan(p.records, s.dirty || p.changed, Extend(s.box, d)), true)
  }

  function Sweep(s: Scan, live: seq<Display>, separate: bool): Step
    decreases |live|
  {
    if |live| == 0 then Step(s, true)
    else
      var t := Visit(s, live[0], separate);
      if !t.ok then t else Sweep(t.scan, live[1..], separate)
  }

  /** A pass whose first visit succeeds continues from the state that visit reached. */
  lemma SweepOnward(s: Scan, live: seq<Display>, separate: bool)
    requires |live| > 0 && Visit(s, live[0], separate).ok
    ensures Sweep(s, live, separate) == Sweep(Visit(s, live[0], separate).scan, live[1..], separate)
  {
  }

  /** The pass from display i on: the visit of display i, then, when it succeeds, the pass from i + 1. */
  lemma SweepAt(s: Scan, live: seq<Display>, i: nat, separate: bool)
    requires i < |live|
    ensures var t := Visit(s, live[i], separate);
      Sweep(s, live[i..], separate) == if t.ok then Sweep(t.scan, live[i + 1..], separate) else t
  {
    assert live[i..][0] == live[i] && live[i..][1..] == live[i + 1..];
  }

  datatype Detection = Detection(records: seq<Record>, basic: Record, ok: bool)

  /** The end of DetectScreens: the basic record rebuilt from the box when the pass completed and changed something. */
  function Rebuild(t: Step, basic: Record): Detection {
    if !t.ok then Detection(t.scan.records, basic, false)
    else if t.scan.dirty then
      var b := t.scan.box;
      var p := Patch(basic, b.left, b.up, b.right - b.left, b.down - b.up);
      Detection(t.scan.records, p.record, p.ok)
    else Detection(t.scan.records, basic, true)
  }

  /** DetectScreens: the new screen list, the new basic record, and whether no setter threw. */
  function Detect(recs: seq<Record>, basic: Record, live: seq<Display>, separate: bool): Detection {
    Rebuild(Sweep(Scan(recs, false, Seed), live, separate), basic)
  }

  // ---------------------------------------------------------------------------
  // Properties of a pass

  /** What every record created by a pass looks like, at position k of the final list. */
  ghost predicate CreatedBy(recs: seq<Record>, k: int, live: seq<Display>, separate: bool)
    requires 0 <= k < |recs|
  {
    var r := recs[k];
    && r.index == LeastFreeIndex(recs[..k])
    && r.opacity == DefaultOpacity && !r.show && r.enabled == separate
    && Attached(r.name, live)
  }

  /** A pass only appends, and the records it started with keep their place, name, index, opacity and flags. */
  lemma {:induction false} SweepKeepsSettings(s: Scan, live: seq<Display>, separate: bool)
    ensures var out := Sweep(s, live, separate).scan.records;
      && |s.records| <= |out|
      && (forall k :: 0 <= k < |s.records| ==> Settings(out[k]) == Settings(s.records[k]))
    decreases |live|
  {
    if |live| > 0 {
      var t := Visit(s, live[0], separate);
      if t.ok {
        PlaceFacts(s.records, live[0], separate);
        SweepKeepsSettings(t.scan, live[1..], separate);
      }
    }
  }

  /** A pass leaves alone every record it started with whose name no live display has. */
  lemma {:induction false} SweepKeepsDetached(s: Scan, live: seq<Display>, separate: bool)
    ensures var out := Sweep(s, live, separate).scan.records;
      && |s.records| <= |out|
      && (forall k :: 0 <= k < |s.records| && !Attached(s.records[k].name, live) ==> out[k] == s.records[k])
    decreases |live|
  {
    if |live| > 0 {
      var d := live[0];
      var t := Visit(s, d, separate);
      if t.ok {
        var u := t.scan.records;
        PlaceFacts(s.records, d, separate);
        SweepKeepsDetached(t.scan, live[1..], separate);
        var out := Sweep(s, live, separate).scan.records;
        assert out == Sweep(t.scan, live[1..], separate).scan.records;
        forall k | 0 <= k < |s.records| && !Attached(s.records[k].name, live)
          ensures out[k] == s.records[k]
        {
          assert s.records[k].name != d.deviceName by {
            assert d in live;
          }
          assert u[k] == s.records[k];
          assert !Attached(u[k].name, live[1..]) by {
            forall e | e in live[1..] ensures e.deviceName != u[k].name {
              assert e in live;
            }
          }
        }
      }
    }
  }

  /** Every record a pass appends is a created record. */
  lemma {:induction false} SweepCreates(s: Scan, live: seq<Display>, separate: bool)
    ensures var out := Sweep(s, live, separate).scan.records;
      forall k :: |s.records| <= k < |out| ==> CreatedBy(out, k, live, separate)
    decreases |live|
  {
    if |live| > 0 {
      var d := live[0];
      var t := Visit(s, d, separate);
      if t.ok {
        var u := t.scan.records;
        PlaceFacts(s.records, d, separate);
        SweepCreates(t.scan, live[1..], separate);
        SweepKeepsSettings(t.scan, live[1..], separate);
        var out := Sweep(s, live, separate).scan.records;
        assert out == Sweep(t.scan, live[1..], separate).scan.records;
        forall k | |s.records| <= k < |out|
          ensures CreatedBy(out, k, live, separate)
        {
          if k < |u| {
            assert k == |s.records|;
            assert Settings(out[k]) == Settings(u[k]);
            SameIndicesSameLeast(out[..k], s.records);
            assert d in live;
          } else {
            assert CreatedBy(out, k, live[1..], separate);
            var n := out[k].name;
            assert Attached(n, live) by {
              var e :| e in live[1..] && e.deviceName == n;
              assert e in live;
            }
          }
        }
      }
    }
  }

  /**
    The records created by a pass get pairwise distinct positive indices, so a list whose
    indices were distinct and positive stays so.
  */
  lemma DetectKeepsIndicesDistinct(recs: seq<Record>, basic: Record, live: seq<Display>, separate: bool)
    requires forall k :: 0 <= k < |recs| ==> recs[k].index >= 1
    requires forall i, j :: 0 <= i < j < |recs| ==> recs[i].index != recs[j].index
    ensures var out := Detect(recs, basic, live, separate).records;
      && (forall k :: 0 <= k < |out| ==> out[k].index >= 1)
      && (forall i, j :: 0 <= i < j < |out| ==> out[i].index != out[j].index)
  {
    var s := Scan(recs, false, Seed);
    SweepKeepsSettings(s, live, separate);
    SweepCreates(s, live, separate);
    var out := Detect(recs, basic, live, separate).records;
    assert out == Sweep(s, live, separate).scan.records;
    forall k | 0 <= k < |out| ensures out[k].index >= 1 {
      if k < |recs| {
        assert Settings(out[k]).index == Settings(recs[k]).index;
      } else {
        assert CreatedBy(out, k, live, separate);
      }
    }
    forall i, j | 0 <= i < j < |out| ensures out[i].index != out[j].index {
      if j < |recs| {
        assert Settings(out[i]).index == Settings(recs[i]).index;
        assert Settings(out[j]).index == Settings(recs[j]).index;
      } else {
        assert CreatedBy(out, j, live, separate);
        assert out[..j][i] == out[i];
        assert out[i].index in Indices(out[..j]);
      }
    }
  }

  /** Visiting a display leaves the first record of every other name where and as it was. */
  lemma VisitKeepsOthers(s: Scan, d: Display, separate: bool, name: string)
    requires name != d.deviceName
    requires Visit(s, d, separate).ok
    ensures var u := Visit(s, d, separate).scan.records;
      && (Lookup(s.records, name) < |s.records| ==>
            Lookup(u, name) == Lookup(s.records, name) && u[Lookup(u, name)] == s.records[Lookup(s.records, name)])
      && (Lookup(s.records, name) == |s.records| ==> Lookup(u, name) == |u|)
  {
    var u := Visit(s, d, separate).scan.records;
    var p := Lookup(s.records, name);
    var q := Lookup(u, name);
    assert forall k :: 0 <= k < |s.records| ==> u[k].name == s.records[k].name by {
      forall k | 0 <= k < |s.records| ensures u[k].name == s.records[k].name {
        assert Settings(u[k]).name == Settings(s.records[k]).name;
      }
    }
    if p < |s.records| {
      assert u[p].name == name;
      assert q <= p;
      assert q == p;
    } else {
      forall k | 0 <= k < |u| ensures u[k].name != name {
        if k >= |s.records| {
          assert u[k] == NewRecord(d, LeastFreeIndex(s.records), separate);
        }
      }
    }
  }

  /** A pass never fails when every live display is within the setter bounds. */
  lemma {:induction false} SweepOkInRange(s: Scan, live: seq<Display>, separate: bool)
    requires forall d :: d in live ==> DisplayInRange(d)
    ensures Sweep(s, live, separate).ok
    decreases |live|
  {
    if |live| > 0 {
      assert live[0] in live;
      SweepOkInRange(Visit(s, live[0], separate).scan, live[1..], separate);
    }
  }

  /**
    After a pass over displays with distinct names, every live display's name has a record,
    and its first record carries that display's geometry.
  */
  lemma {:induction false} SweepMatches(s: Scan, live: seq<Display>, separate: bool)
    requires DistinctNames(live)
    requires Sweep(s, live, separate).ok
    ensures forall d :: d in live ==> !Stale(Sweep(s, live, separate).scan.records, d)
    decreases |live|
  {
    if |live| > 0 {
      var d0 := live[0];
      var t := Visit(s, d0, separate);
      var rest := live[1..];
      assert DistinctNames(rest) by {
        forall i, j | 0 <= i < j < |rest| ensures rest[i].deviceName != rest[j].deviceName {
          assert rest[i] == live[i + 1] && rest[j] == live[j + 1];
        }
      }
      SweepMatches(t.scan, rest, separate);
      PlaceFacts(s.records, d0, separate);
      assert !Stale(t.scan.records, d0);
      assert !Attached(d0.deviceName, rest) by {
        forall e | e in rest ensures e.deviceName != d0.deviceName {
          var j :| 0 <= j < |rest| && rest[j] == e;
          assert live[j + 1] == e;
        }
      }
      SweepKeepsUnattached(t.scan, rest, separate, d0.deviceName);
      forall d | d in live ensures !Stale(Sweep(s, live, separate).scan.records, d) {
        if d != d0 {
          assert d in rest;
        }
      }
    }
  }

  /** A pass keeps the first record of a name that no remaining display has. */
  lemma {:induction false} SweepKeepsUnattached(s: Scan, live: seq<Display>, separate: bool, name: string)
    requires !Attached(name, live)
    requires Sweep(s, live, separate).ok
    ensures var out := Sweep(s, live, separate).scan.records;
      && |s.records| <= |out|
      && (Lookup(s.records, name) < |s.records| ==>
            Lookup(out, name) == Lookup(s.records, name) && out[Lookup(out, name)] == s.records[Lookup(s.records, name)])
      && (Lookup(s.records, name) == |s.records| ==> Lookup(out, name) == |out|)
    decreases |live|
  {
    if |live| > 0 {
      assert live[0] in live;
      VisitKeepsOthers(s, live[0], separate, name);
      assert !Attached(name, live[1..]) by {
        forall e | e in live[1..] ensures e.deviceName != name {
          assert e in live;
        }
      }
      SweepKeepsUnattached(Visit(s, live[0], separate).scan, live[1..], separate, name);
    }
  }

  /**
    With distinct live names, a pass marks the aggregate dirty exactly when some live display
    had no record or a record with other geometry at the start of the pass; its box is the
    start box grown over every live display.
  */
  lemma {:induction false} SweepDirty(s: Scan, live: seq<Display>, separate: bool)
    requires DistinctNames(live)
    requires Sweep(s, live, separate).ok
    ensures Sweep(s, live, separate).scan.dirty == (s.dirty || exists d :: d in live && Stale(s.records, d))
    ensures Sweep(s, live, separate).scan.box == Enclose(s.box, live)
    decreases |live|
  {
    if |live| > 0 {
      var d0 := live[0];
      var t := Visit(s, d0, separate);
      var rest := live[1..];
      assert DistinctNames(rest) by {
        forall i, j | 0 <= i < j < |rest| ensures rest[i].deviceName != rest[j].deviceName {
          assert rest[i] == live[i + 1] && rest[j] == live[j + 1];
        }
      }
      SweepDirty(t.scan, rest, separate);
      PlaceFacts(s.records, d0, separate);
      forall d | d in rest ensures Stale(t.scan.records, d) == Stale(s.records, d) {
        var j :| 0 <= j < |rest| && rest[j] == d;
        assert live[j + 1] == d;
        VisitKeepsOthers(s, d0, separate, d.deviceName);
      }
      assert forall d :: d in live ==> d == d0 || d in rest;
      assert forall d :: d in rest ==> d in live;
    }
  }

  /** A pass over displays that are all up to date changes nothing but the box. */
  lemma {:induction false} SweepSettled(s: Scan, live: seq<Display>, separate: bool)
    requires forall d :: d in live ==> !Stale(s.records, d)
    ensures Sweep(s, live, separate) == Step(s.(box := Enclose(s.box, live)), true)
    decreases |live|
  {
    if |live| > 0 {
      assert live[0] in live;
      assert forall d :: d in live[1..] ==> d in live;
      SweepSettled(Visit(s, live[0], separate).scan, live[1..], separate);
    }
  }

  /**
    DetectScreens only appends: every record present before keeps its position, name, index,
    opacity and flags; a record whose name matches no live display is left unchanged; every
    appended record was created for a live display with the least free positive index at the
    time, DEFAULT_OPACITY, Show unset and Enabled as the mode says.
  */
  lemma DetectOnlyAppends(recs: seq<Record>, basic: Record, live: seq<Display>, separate: bool)
    ensures var out := Detect(recs, basic, live, separate).records;
      && |recs| <= |out|
      && (forall k :: 0 <= k < |recs| ==> Settings(out[k]) == Settings(recs[k]))
      && (forall k :: 0 <= k < |recs| && !Attached(recs[k].name, live) ==> out[k] == recs[k])
      && (forall k :: |recs| <= k < |out| ==> CreatedBy(out, k, live, separate))
  {
    SweepKeepsSettings(Scan(recs, false, Seed), live, separate);
    SweepKeepsDetached(Scan(recs, false, Seed), live, separate);
    SweepCreates(Scan(recs, false, Seed), live, separate);
  }

  /**
    The per-screen pass of DetectScreens throws nothing. By SweepOkInRange this holds
    whenever every live display lies within the setter bounds.
  */
  predicate PassSucceeds(recs: seq<Record>, live: seq<Display>, separate: bool) {
    Sweep(Scan(recs, false, Seed), live, separate).ok
  }

  /**
    With distinct live names and a pass that throws nothing, DetectScreens leaves every live
    display's first record with that display's geometry.
  */
  lemma DetectPatchesLive(recs: seq<Record>, basic: Record, live: seq<Display>, separate: bool)
    requires DistinctNames(live)
    requires PassSucceeds(recs, live, separate)
    ensures var out := Detect(recs, basic, live, separate).records;
      forall d :: d in live ==>
        Lookup(out, d.deviceName) < |out| && SameGeometry(out[Lookup(out, d.deviceName)], d)
  {
    SweepMatches(Scan(recs, false, Seed), live, separate);
  }

  /**
    The basic record. With distinct live names and a pass that throws nothing, when some live
    display was new or had changed, the basic record is set to the box that encloses (0, 0)
    and every live display, which the setters accept exactly when its size is within MaxRes.
    Its name, index, opacity and flags never change.
  */
  lemma DetectRebuildsBasic(recs: seq<Record>, basic: Record, live: seq<Display>, separate: bool)
    requires DistinctNames(live)
    requires PassSucceeds(recs, live, separate)
    requires exists d :: d in live && Stale(recs, d)
    ensures var det := Detect(recs, basic, live, separate);
      var e := Enclose(Seed, live);
      && Settings(det.basic) == Settings(basic)
      && det.ok == GeometryInRange(e.left, e.up, e.right - e.left, e.down - e.up)
      && (det.ok ==> det.basic == basic.(originX := e.left, originY := e.up,
                                         resX := e.right - e.left, resY := e.down - e.up))
  {
    var s := Scan(recs, false, Seed);
    var t := Sweep(s, live, separate);
    SweepDirty(s, live, separate);
    assert t.ok && t.scan.dirty && t.scan.box == Enclose(Seed, live);
  }

  /**
    When every live display already has a record with its geometry (in particular when there
    is no live display), DetectScreens changes nothing, the basic record included.
  */
  lemma DetectLeavesSettled(recs: seq<Record>, basic: Record, live: seq<Display>, separate: bool)
    requires forall d :: d in live ==> !Stale(recs, d)
    ensures Detect(recs, basic, live, separate) == Detection(recs, basic, true)
  {
    SweepSettled(Scan(recs, false, Seed), live, separate);
  }

  /**
    Idempotence: with distinct live names and a first pass that throws nothing, a second DetectScreens
    over the same display list adds nothing, patches nothing and leaves the basic record
    alone, whatever the basic record and the mode are.
  */
  lemma DetectIdempotent(recs: seq<Record>, basic: Record, live: seq<Display>, separate: bool,
                         basic2: Record, separate2: bool)
    requires DistinctNames(live)
    requires PassSucceeds(recs, live, separate)
    ensures var first := Detect(recs, basic, live, separate).records;
      Detect(first, basic2, live, separate2) == Detection(first, basic2, true)
  {
    var first := Detect(recs, basic, live, separate).records;
    DetectPatchesLive(recs, basic, live, separate);
    SweepSettled(Scan(first, false, Seed), live, separate2);
  }
}
