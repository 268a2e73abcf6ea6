/**
  OptionsForm: the screen list, the aggregate "basic" record, the mode flag, the deferred
  save flag and the settings files written, with the form's construction paths and the
  handlers that change them.

  The live display list (Screen.AllScreens) is passed to each operation that reads it. The
  tab pages are not modelled: the per-screen tabs are rebuilt from the screen list after every
  change to it, so the records reached through them are the records of the list. An
  exception that escapes an operation is reported by `ok == false`, with the state the
  operation had reached.
*/
module Dimmer {
  import opened Wrappers
  import opened SettingsDocument
  import opened Screens
  import opened Reconciliation
  import opened Persistence
  import Debounce

  function Views(l: seq<ScreenInfo>): (r: seq<Record>)
    reads l
  {
    seq(|l|, k reads l requires 0 <= k < |l| => l[k].View())
  }

  /** Every record with its Enabled flag set to `b`: the effect of ChangeTabs on the per-screen records. */
  function WithEnabled(recs: seq<Record>, b: bool): (r: seq<Record>)
    ensures |r| == |recs|
    ensures forall k :: 0 <= k < |recs| ==> r[k] == recs[k].(enabled := b)
  {
    seq(|recs|, k requires 0 <= k < |recs| => recs[k].(enabled := b))
  }

  /**
    Switching the mode changes nothing that is saved but the mode itself: the Enabled flags
    are not part of the settings file.
  */
  lemma EnabledNotSaved(separate: bool, basic: Record, recs: seq<Record>, b: bool, c: bool)
    ensures Encode(separate, basic.(enabled := b), WithEnabled(recs, c)) == Encode(separate, basic, recs)
  {
    var es := EncodeScreens(WithEnabled(recs, c));
    assert es == EncodeScreens(recs) by {
      forall k | 0 <= k < |recs| ensures es[k] == EncodeScreens(recs)[k] {
        assert WithEnabled(recs, c)[k] == recs[k].(enabled := c);
      }
    }
  }

  /**
    After a mode switch the state is restorable again when it was before in the other mode:
    saving it and loading it back gives the records with their new Enabled flags.
  */
  lemma SwitchedStateRestorable(separate: bool, basic: Record, recs: seq<Record>, live: seq<Display>)
    requires Restorable(!separate, basic, recs, live)
    ensures Restorable(separate, basic.(enabled := !separate), WithEnabled(recs, separate), live)
  {
    var w := WithEnabled(recs, separate);
    forall k | 0 <= k < |w| ensures Admitted(w[k], live, separate) {
      assert Admitted(recs[k], live, !separate);
    }
  }

  /** AssignGeometry: the four geometry setters in the order DetectScreens uses them. */
  method AssignGeometry(s: ScreenInfo, x: int, y: int, w: int, h: int) returns (ok: bool)
    requires s.Valid() && s.hasOverlay
    modifies s
    ensures s.Valid() && s.hasOverlay && s.visible == old(s.visible)
    ensures var p := Patch(old(s.View()), x, y, w, h); s.View() == p.record && ok == p.ok
  {
    ok := s.SetOriginX(x);
    if !ok { return; }
    ok := s.SetOriginY(y);
    if !ok { return; }
    ok := s.SetResolutionX(w);
    if !ok { return; }
    ok := s.SetResolutionY(h);
  }

  /** The four comparisons at the end of DetectScreens' outer foreach: the running bounds grown over one display. */
  method GrowBounds(left: int, up: int, right: int, down: int, d: Display) returns (left': int, up': int, right': int, down': int)
    ensures Box(left', up', right', down') == Extend(Box(left, up, right, down), d)
    ensures left' <= left && up' <= up && right' >= right && down' >= down
    ensures left' <= d.x && up' <= d.y && right' >= d.x + d.width && down' >= d.y + d.height
  {
    left', up', right', down' := left, up, right, down;
    if left' > d.x { left' := d.x; }
    if up' > d.y { up' := d.y; }
    if right' < d.x + d.width { right' := d.x + d.width; }
    if down' < d.y + d.height { down' := d.y + d.height; }
  }

  /** The inner foreach of the loader over Screen.AllScreens: whether some live display has the name. */
  method IsAttached(name: string, live: seq<Display>) returns (b: bool)
    ensures b == Attached(name, live)
  {
    var i := 0;
    while i < |live|
      invariant 0 <= i <= |live|
      invariant forall k :: 0 <= k < i ==> live[k].deviceName != name
    {
      if live[i].deviceName == name {
        return true;
      }
      i := i + 1;
    }
    return false;
  }

  /** The left and up elements of "basicScreen", through the OriginX and OriginY setters. */
  method ReadOrigin(s: ScreenInfo, e: BasicElement) returns (err: Option<LoadError>)
    requires s.Valid() && s.hasOverlay
    modifies s
    ensures s.Valid() && s.hasOverlay
    ensures var p := LoadOrigin(old(s.View()), e); s.View() == p.record && err == p.error
  {
    var left := ParseInt32(e.left);
    if left.Failure? { return Some(left.error); }
    var ok := s.SetOriginX(left.value);
    if !ok { return Some(OutOfRange); }
    var up := ParseInt32(e.up);
    if up.Failure? { return Some(up.error); }
    ok := s.SetOriginY(up.value);
    if !ok { return Some(OutOfRange); }
    return None;
  }

  /** The right and down elements, less the stored origin in 32-bit arithmetic, through the resolution setters. */
  method ReadSize(s: ScreenInfo, e: BasicElement) returns (err: Option<LoadError>)
    requires s.Valid() && s.hasOverlay
    modifies s
    ensures s.Valid() && s.hasOverlay
    ensures var p := LoadSize(old(s.View()), e); s.View() == p.record && err == p.error
  {
    var right := ParseInt32(e.right);
    if right.Failure? { return Some(right.error); }
    var ok := s.SetResolutionX(Wrap32(right.value - s.originX));
    if !ok { return Some(OutOfRange); }
    var down := ParseInt32(e.down);
    if down.Failure? { return Some(down.error); }
    ok := s.SetResolutionY(Wrap32(down.value - s.originY));
    if !ok { return Some(OutOfRange); }
    return None;
  }

  /** The enabled element into Show, the opacity through its checked setter, then Enabled from the mode. */
  method ReadLook(s: ScreenInfo, e: BasicElement, separate: bool) returns (err: Option<LoadError>)
    requires s.Valid() && s.hasOverlay
    modifies s
    ensures s.Valid() && s.hasOverlay
    ensures var p := LoadLook(old(s.View()), e, separate); s.View() == p.record && err == p.error
  {
    var show := ParseBool(e.enabled);
    if show.Failure? { return Some(show.error); }
    s.SetShow(show.value);
    var opacity := ParseReal(e.opacity);
    if opacity.Failure? { return Some(opacity.error); }
    var ok := s.SetOpacity(opacity.value);
    if !ok { return Some(OutOfRange); }
    s.SetEnabled(!separate);
    return None;
  }

  class OptionsForm {
    var screenList: seq<ScreenInfo>
    var basic: ScreenInfo
    var useSeparateScreens: bool
    var saveTimerTriggered: bool
    /** Every settings file SaveSettings has written, oldest first. */
    var written: seq<Document>

    /** The position of each record in the list: it makes the records distinct objects. */
    ghost var position: map<ScreenInfo, nat>

    /** The records are distinct objects, the basic record is none of them, and all own an overlay. */
    ghost predicate Valid()
      reads this`basic, this`screenList, this`position, basic, screenList
    {
      && basic.Valid() && basic.hasOverlay
      && (forall k :: 0 <= k < |screenList| ==>
            && screenList[k] != basic && screenList[k] in position && position[screenList[k]] == k
            && screenList[k].Valid() && screenList[k].hasOverlay)
    }

    function Records(): seq<Record>
      reads this`screenList, screenList
    {
      Views(screenList)
    }

    /** The document SaveSettings would write now. */
    function Snapshot(): Document
      reads this`useSeparateScreens, this`basic, this`screenList, basic, screenList
    {
      Encode(useSeparateScreens, basic.View(), Records())
    }

    function SaveState(): Debounce.Saver
      reads this`saveTimerTriggered, this`written
    {
      Debounce.Saver(saveTimerTriggered, |written|)
    }

    /** The fields as both constructors find them: an empty list and the initial basic record. */
    constructor Blank()
      ensures Valid() && fresh(basic)
      ensures screenList == [] && basic.View() == InitialBasic() && !basic.visible
      ensures !useSeparateScreens && !saveTimerTriggered && written == []
    {
      screenList := [];
      position := map[];
      basic := new ScreenInfo("basic", 0, 0, 0, 0, 0, DefaultOpacity);
      useSeparateScreens := false;
      saveTimerTriggered := false;
      written := [];
    }

    // -------------------------------------------------------------------------
    // Construction

    /**
      OptionsForm(): used when there is no settings file. The list is built by DetectScreens
      from nothing, the mode is aggregated, and the settings are saved at once.
    */
    static method CreateDefault(live: seq<Display>) returns (f: OptionsForm, ok: bool)
      ensures fresh(f)
      ensures var d := Detect([], InitialBasic(), live, false);
        && ok == d.ok
        && (ok ==>
              && f.Valid()
              && f.Records() == WithEnabled(d.records, false)
              && f.basic.View() == d.basic.(enabled := true)
              && !f.useSeparateScreens && !f.saveTimerTriggered
              && f.written == [Encode(false, d.basic.(enabled := true), WithEnabled(d.records, false))])
    {
      f := new OptionsForm.Blank();
      ok := f.DetectAndSave(live);
    }

    /** The body of OptionsForm() after the fields are set: detection, the form, its tabs and timer, and the save. */
    method DetectAndSave(live: seq<Display>) returns (ok: bool)
      requires Valid() && screenList == []
      modifies this`screenList, this`position, this`saveTimerTriggered, this`written, basic
      ensures var d := Detect([], old(basic.View()), live, useSeparateScreens);
        && ok == d.ok
        && (ok ==>
              && Valid()
              && Records() == WithEnabled(d.records, useSeparateScreens)
              && basic.View() == d.basic.(enabled := !useSeparateScreens)
              && !saveTimerTriggered
              && written == old(written) + [Encode(useSeparateScreens, basic.View(), Records())])
    {
      ok := DetectScreens(live);
      if !ok { return; }
      Initialize();
      SaveSettings();
    }

    /**
      OptionsForm(XDocument): the settings are read from the document. When that succeeds the
      list holds the stored records of attached displays and nothing is saved; on any error
      the list is cleared and rebuilt by DetectScreens, keeping the mode and the basic record
      as far as they were read, and the result is saved.
    */
    static method FromDocument(doc: Document, live: seq<Display>) returns (f: OptionsForm, ok: bool)
      ensures fresh(f)
      ensures var l := Load(doc, live);
        && (l.error.None? ==>
              && ok && f.Valid()
              && f.Records() == WithEnabled(l.records, l.separate)
              && f.basic.View() == l.basic.(enabled := !l.separate)
              && f.useSeparateScreens == l.separate && !f.saveTimerTriggered && f.written == [])
        && (l.error.Some? ==>
              var d := Detect([], l.basic, live, l.separate);
              && ok == d.ok
              && (ok ==>
                    && f.Valid()
                    && f.Records() == WithEnabled(d.records, l.separate)
                    && f.basic.View() == d.basic.(enabled := !l.separate)
                    && f.useSeparateScreens == l.separate && !f.saveTimerTriggered
                    && f.written == [Encode(l.separate, d.basic, d.records)]))
    {
      f := new OptionsForm.Blank();
      var err := f.Restore(doc, live);
      ok := true;
      if err.Some? {
        ok := f.FallBack(live);
        if !ok { return; }
      }
      f.Initialize();
    }

    /**
      The three calls that end both constructors: the form and its tabs are built, which
      applies the mode through ChangeTabs, and the timer is created idle.
    */
    method Initialize()
      requires Valid()
      modifies this`saveTimerTriggered, basic, screenList
      ensures Valid()
      ensures Records() == WithEnabled(old(Records()), useSeparateScreens)
      ensures basic.View() == old(basic.View()).(enabled := !useSeparateScreens)
      ensures !saveTimerTriggered
    {
      ChangeTabs();
      InitializeTimer();
    }

    /** Both try blocks of the loader: the header, then the "screen" elements. */
    method Restore(doc: Document, live: seq<Display>) returns (err: Option<LoadError>)
      requires Valid() && screenList == [] && !useSeparateScreens && basic.View() == InitialBasic()
      modifies this`useSeparateScreens, this`screenList, this`position, basic
      ensures Valid()
      ensures var l := Load(doc, live);
        && err == l.error && useSeparateScreens == l.separate
        && basic.View() == l.basic && Records() == l.records
      ensures forall k :: 0 <= k < |screenList| ==> fresh(screenList[k])
    {
      err := ReadHeader(doc);
      if err.None? {
        err := ReadScreenElements(doc.screens, live);
      }
    }

    /** The catch block of the loader: the list is cleared, rebuilt by DetectScreens, and saved. */
    method FallBack(live: seq<Display>) returns (ok: bool)
      requires Valid()
      modifies this`screenList, this`position, this`written, basic, screenList
      ensures Valid()
      ensures var d := Detect([], old(basic.View()), live, useSeparateScreens);
        && ok == d.ok && Records() == d.records && basic.View() == d.basic
        && written == old(written) + if ok then [Encode(useSeparateScreens, d.basic, d.records)] else []
      ensures forall k :: 0 <= k < |screenList| ==> fresh(screenList[k])
    {
      ClearScreenList();
      ok := DetectScreens(live);
      if ok {
        SaveSettings();
      }
    }

    /** The first try block of the loader, on the initial state. */
    method ReadHeader(doc: Document) returns (err: Option<LoadError>)
      requires Valid() && screenList == [] && !useSeparateScreens
      modifies this`useSeparateScreens, basic
      ensures Valid() && screenList == []
      ensures var h := LoadHeader(doc, old(basic.View()));
        err == h.error && useSeparateScreens == h.separate && basic.View() == h.basic
    {
      if doc.options.None? || doc.basic.None? {
        return Some(MissingElement);
      }
      var separate := ParseBool(doc.options.value.separateScreens);
      if separate.Failure? { return Some(separate.error); }
      useSeparateScreens := separate.value;
      var e := doc.basic.value;
      err := ReadOrigin(basic, e);
      if err.Some? { return; }
      err := ReadSize(basic, e);
      if err.Some? { return; }
      err := ReadLook(basic, e, useSeparateScreens);
    }

    /**
      The part of one pass of the loader's foreach that builds the new record: read, enabled
      in separate-screen mode and, when its display is attached, its "enabled" text applied
      to Show. Its "enabled" text is parsed only when the display is attached.
    */
    method ScreenFromElement(e: ScreenElement, live: seq<Display>)
      returns (r: Result<ScreenInfo, LoadError>, attached: bool, err: Option<LoadError>)
      ensures r.Success? ==> fresh(r.value) && r.value.Valid() && r.value.hasOverlay
      ensures var l := LoadElement(Records(), e, live, useSeparateScreens);
        && err == l.error
        && l.records == if r.Success? && attached then Records() + [r.value.View()] else Records()
    {
      r := ScreenInfo.FromElement(e);
      if r.Failure? {
        return r, false, Some(r.error);
      }
      var s := r.value;
      if useSeparateScreens {
        s.SetEnabled(true);
      }
      attached := IsAttached(s.name, live);
      err := None;
      if attached {
        var show := ParseBool(e.enabled);
        if show.Failure? {
          err := Some(show.error);
        } else if show.value {
          s.SetShow(true);
        }
      }
    }

    /** One pass of the loader's foreach: the record built, and appended when its display is attached. */
    method ReadScreenElement(e: ScreenElement, live: seq<Display>) returns (err: Option<LoadError>)
      requires Valid()
      modifies this`screenList, this`position
      ensures Valid()
      ensures var l := LoadElement(old(Records()), e, live, useSeparateScreens);
        Records() == l.records && err == l.error
      ensures old(screenList) <= screenList && forall k :: |old(screenList)| <= k < |screenList| ==> fresh(screenList[k])
    {
      var r, attached;
      r, attached, err := ScreenFromElement(e, live);
      if r.Success? && attached {
        var s := r.value;
        position := position[s := |screenList|];
        screenList := screenList + [s];
        assert Records() == old(Records()) + [s.View()];
      }
    }

    /** The foreach of the loader over the "screen" elements. */
    method ReadScreenElements(elems: seq<ScreenElement>, live: seq<Display>) returns (err: Option<LoadError>)
      requires Valid()
      modifies this`screenList, this`position
      ensures Valid()
      ensures var l := LoadScreens(old(Records()), elems, live, useSeparateScreens);
        Records() == l.records && err == l.error
      ensures old(screenList) <= screenList && forall k :: |old(screenList)| <= k < |screenList| ==> fresh(screenList[k])
    {
      err := None;
      var i := 0;
      ghost var outcome := LoadScreens(Records(), elems, live, useSeparateScreens);
      assert elems[i..] == elems;
      while i < |elems|
        invariant 0 <= i <= |elems| && err.None?
        invariant Valid()
        invariant old(screenList) <= screenList && forall k :: |old(screenList)| <= k < |screenList| ==> fresh(screenList[k])
        invariant LoadScreens(Records(), elems[i..], live, useSeparateScreens) == outcome
      {
        LoadScreensAt(Records(), elems, i, live, useSeparateScreens);
        err := ReadScreenElement(elems[i], live);
        if err.Some? {
          break;
        }
        i := i + 1;
      }
      if err.None? {
        assert elems[i..] == [];
      }
    }

    // -------------------------------------------------------------------------
    // DetectScreens and its parts

    /** The first record with the given name, or |screenList| when there is none. */
    method FindScreen(name: string) returns (j: nat)
      ensures j == Lookup(Records(), name)
    {
      j := 0;
      while j < |screenList|
        invariant 0 <= j <= |screenList|
        invariant forall k :: 0 <= k < j ==> Records()[k].name != name
      {
        if screenList[j].name == name {
          assert Records()[j] == screenList[j].View();
          return;
        }
        j := j + 1;
      }
    }

    /** The while (unavailable) loop: the least positive index no record uses. */
    method NewIndex() returns (n: int)
      ensures n == LeastFreeIndex(Records())
    {
      ghost var used := Indices(Records());
      n := 0;
      var unavailable := true;
      while unavailable
        invariant 0 <= n
        invariant forall k :: 1 <= k < n ==> k in used
        invariant unavailable ==> n == 0 || n in used
        invariant !unavailable ==> 1 <= n && n !in used
        decreases |Above(used, n + 1)|, unavailable
      {
        unavailable := false;
        n := n + 1;
        var i := 0;
        while i < |screenList|
          invariant 0 <= i <= |screenList|
          invariant forall k :: 0 <= k < i ==> screenList[k].screenIndex != n
        {
          if n == screenList[i].screenIndex {
            unavailable := true;
            assert Records()[i].index == n;
            break;
          }
          i := i + 1;
        }
        if unavailable {
          AboveShrinks(used, n);
        } else {
          assert n !in used by {
            forall k | 0 <= k < |Records()| ensures Records()[k].index != n {
              assert screenList[k].screenIndex != n;
            }
          }
          assert Above(used, n + 1) == Above(used, n);
        }
      }
    }

    /** NewScreenInfo: a record for a live display, not shown, enabled in separate-screen mode. */
    method NewScreenInfo(d: Display, index: int) returns (s: ScreenInfo)
      ensures fresh(s) && s.Valid() && s.hasOverlay && !s.visible
      ensures s.View() == NewRecord(d, index, useSeparateScreens)
    {
      s := new ScreenInfo(d.deviceName, index, d.x, d.y, d.width, d.height, DefaultOpacity);
      s.SetShow(false);
      if useSeparateScreens {
        s.SetEnabled(true);
      }
    }

    /** The four setters applied to the record at position j, with a live display's bounds. */
    method PatchScreen(j: nat, d: Display) returns (ok: bool)
      requires Valid() && j < |screenList|
      modifies screenList[j]
      ensures Valid()
      ensures var p := Patch(old(Records())[j], d.x, d.y, d.width, d.height);
        Records() == old(Records())[j := p.record] && ok == p.ok
    {
      var s := screenList[j];
      ok := AssignGeometry(s, d.x, d.y, d.width, d.height);
      assert forall k :: 0 <= k < |screenList| && k != j ==> screenList[k] != s;
    }

    /** Appends a new record for a live display, with the least free index. */
    method AddScreen(d: Display)
      requires Valid()
      modifies this`screenList, this`position
      ensures Valid()
      ensures Records() == old(Records()) + [NewRecord(d, LeastFreeIndex(old(Records())), useSeparateScreens)]
      ensures old(screenList) <= screenList && forall k :: |old(screenList)| <= k < |screenList| ==> fresh(screenList[k])
    {
      var n := NewIndex();
      var s := NewScreenInfo(d, n);
      position := position[s := |screenList|];
      screenList := screenList + [s];
      assert Records() == old(Records()) + [s.View()];
    }

    /** The body of the outer foreach of DetectScreens, up to the bounding box. */
    method VisitDisplay(d: Display) returns (changed: bool, ok: bool)
      requires Valid()
      modifies this`screenList, this`position, screenList
      ensures Valid()
      ensures var p := Place(old(Records()), d, useSeparateScreens);
        Records() == p.records && changed == p.changed && ok == p.ok
      ensures old(screenList) <= screenList && forall k :: |old(screenList)| <= k < |screenList| ==> fresh(screenList[k])
    {
      var j := FindScreen(d.deviceName);
      if j < |screenList| {
        var s := screenList[j];
        if s.originX != d.x || s.originY != d.y || s.resX != d.width || s.resY != d.height {
          ok := PatchScreen(j, d);
          changed := ok;
        } else {
          changed, ok := false, true;
        }
      } else {
        AddScreen(d);
        changed, ok := true, true;
      }
    }

    /** One iteration of the outer foreach of DetectScreens: the display placed, then the bounds grown over it. */
    method VisitStep(d: Display, ghost cur: Scan, dirty: bool, left: int, up: int, right: int, down: int)
      returns (dirty': bool, left': int, up': int, right': int, down': int, ok: bool)
      requires Valid() && cur == Scan(Records(), dirty, Box(left, up, right, down))
      modifies this`screenList, this`position, screenList
      ensures Valid()
      ensures Visit(cur, d, useSeparateScreens) == Step(Scan(Records(), dirty', Box(left', up', right', down')), ok)
      ensures old(screenList) <= screenList && forall k :: |old(screenList)| <= k < |screenList| ==> fresh(screenList[k])
    {
      var changed;
      changed, ok := VisitDisplay(d);
      if !ok {
        return dirty, left, up, right, down, false;
      }
      dirty' := dirty || changed;
      left', up', right', down' := GrowBounds(left, up, right, down, d);
    }

    /** The outer foreach of DetectScreens: every live display visited in order, with the running bounds. */
    method SweepDisplays(live: seq<Display>) returns (dirty: bool, left: int, up: int, right: int, down: int, ok: bool)
      requires Valid()
      modifies this`screenList, this`position, screenList
      ensures Valid()
      ensures Sweep(Scan(old(Records()), false, Seed), live, useSeparateScreens)
        == Step(Scan(Records(), dirty, Box(left, up, right, down)), ok)
      ensures old(screenList) <= screenList && forall k :: |old(screenList)| <= k < |screenList| ==> fresh(screenList[k])
    {
      dirty := false;
      left, up, right, down := 0, 0, 0, 0;
      ok := true;
      var i := 0;
      ghost var cur := Scan(Records(), dirty, Box(left, up, right, down));
      ghost var outcome := Sweep(cur, live, useSeparateScreens);
      assert live[i..] == live;
      while ok && i < |live|
        invariant 0 <= i <= |live|
        invariant Valid()
        invariant old(screenList) <= screenList && forall k :: |old(screenList)| <= k < |screenList| ==> fresh(screenList[k])
        invariant cur == Scan(Records(), dirty, Box(left, up, right, down))
        invariant if ok then Sweep(cur, live[i..], useSeparateScreens) == outcome else outcome == Step(cur, false)
      {
        SweepAt(cur, live, i, useSeparateScreens);
        ghost var t := Visit(cur, live[i], useSeparateScreens);
        dirty, left, up, right, down, ok := VisitStep(live[i], cur, dirty, left, up, right, down);
        cur := t.scan;
        i := i + 1;
      }
      if ok {
        assert live[i..] == [];
      }
    }

    /**
      DetectScreens: reconciles the list with the live displays and rebuilds the basic
      record from their bounding box when anything was patched or created.
    */
    method DetectScreens(live: seq<Display>) returns (ok: bool)
      requires Valid()
      modifies this`screenList, this`position, basic, screenList
      ensures Valid()
      ensures var d := Detect(old(Records()), old(basic.View()), live, useSeparateScreens);
        Records() == d.records && basic.View() == d.basic && ok == d.ok
      ensures old(screenList) <= screenList && forall k :: |old(screenList)| <= k < |screenList| ==> fresh(screenList[k])
    {
      var dirty, left, up, right, down;
      dirty, left, up, right, down, ok := SweepDisplays(live);
      ok := RebuildBasic(Step(Scan(Records(), dirty, Box(left, up, right, down)), ok));
    }

    /** The tail of DetectScreens: the basic record's geometry set from the bounding box when the pass changed something. */
    method RebuildBasic(t: Step) returns (ok: bool)
      requires Valid()
      modifies basic
      ensures Valid() && Records() == old(Records())
      ensures var d := Rebuild(t, old(basic.View())); basic.View() == d.basic && ok == d.ok
    {
      ok := t.ok;
      if t.ok && t.scan.dirty {
        var b := t.scan.box;
        ok := AssignGeometry(basic, b.left, b.up, b.right - b.left, b.down - b.up);
      }
    }

    /** ClearScreenList: closes every record's overlay and empties the list. */
    method ClearScreenList()
      requires Valid()
      modifies this`screenList, screenList
      ensures Valid() && screenList == []
      ensures forall k :: 0 <= k < |old(screenList)| ==>
        !old(screenList)[k].hasOverlay && !old(screenList)[k].visible
        && old(screenList)[k].View() == old(screenList[k].View())
    {
      var i := 0;
      while i < |screenList|
        invariant 0 <= i <= |screenList|
        invariant screenList == old(screenList)
        invariant forall k :: 0 <= k < i ==> !screenList[k].hasOverlay && !screenList[k].visible
        invariant forall k :: i <= k < |screenList| ==> screenList[k].Valid() && screenList[k].hasOverlay
        invariant forall k :: 0 <= k < |screenList| ==> screenList[k].View() == old(screenList[k].View())
      {
        screenList[i].Destroy();
        i := i + 1;
      }
      screenList := [];
    }

    // -------------------------------------------------------------------------
    // Mode switching

    /** Sets the Enabled flag of every per-screen record, one record at a time. */
    method SetScreensEnabled(b: bool)
      requires Valid()
      modifies screenList
      ensures Valid()
      ensures Records() == WithEnabled(old(Records()), b)
    {
      var i := 0;
      while i < |screenList|
        invariant 0 <= i <= |screenList|
        invariant Valid()
        invariant forall k :: 0 <= k < i ==> screenList[k].View() == old(screenList[k].View()).(enabled := b)
        invariant forall k :: i <= k < |screenList| ==> screenList[k].View() == old(screenList[k].View())
      {
        screenList[i].SetEnabled(b);
        i := i + 1;
      }
    }

    /**
      The record-flag part of ChangeTabs: in separate-screen mode every per-screen record is
      enabled and the basic record is not, otherwise the other way round. Show, opacity and
      geometry are untouched, and an overlay is visible exactly when its record is enabled
      and shown.
    */
    method ChangeTabs()
      requires Valid()
      modifies basic, screenList
      ensures Valid()
      ensures Records() == WithEnabled(old(Records()), useSeparateScreens)
      ensures basic.View() == old(basic.View()).(enabled := !useSeparateScreens)
    {
      if useSeparateScreens {
        basic.SetEnabled(false);
      } else {
        SetScreensEnabled(false);
      }
      if useSeparateScreens {
        SetScreensEnabled(true);
      } else {
        basic.SetEnabled(true);
      }
    }

    // -------------------------------------------------------------------------
    // Deferred saving

    method InitializeTimer()
      modifies this`saveTimerTriggered
      ensures SaveState() == Debounce.Saver(false, |written|)
    {
      saveTimerTriggered := false;
    }

    /** TriggerSave: arms the save unless it is already pending; a pending save is not postponed. */
    method TriggerSave()
      modifies this`saveTimerTriggered
      ensures SaveState() == Debounce.Next(old(SaveState()), Debounce.Edit)
    {
      if !saveTimerTriggered {
        saveTimerTriggered := true;
      }
    }

    /** SaveSettings: writes the current settings document. */
    method SaveSettings()
      modifies this`written
      ensures written == old(written) + [old(Snapshot())]
    {
      written := written + [Snapshot()];
    }

    /** SaveTimerElapsed: the armed timer fired; the settings are written and the flag cleared. */
    method SaveTimerElapsed()
      requires saveTimerTriggered
      modifies this`saveTimerTriggered, this`written
      ensures SaveState() == Debounce.Next(old(SaveState()), Debounce.Elapsed)
      ensures written == old(written) + [old(Snapshot())]
    {
      SaveSettings();
      saveTimerTriggered := false;
    }

    /** ExitButtonClicked: writes the settings only if a save is pending, then the application ends. */
    method ExitButtonClicked()
      modifies this`written
      ensures SaveState() == Debounce.Next(old(SaveState()), Debounce.Exit)
      ensures written == old(written) + (if old(saveTimerTriggered) then [old(Snapshot())] else [])
    {
      if saveTimerTriggered {
        SaveSettings();
      }
    }

    // -------------------------------------------------------------------------
    // Handlers

    /** The "use individual screens" check box: sets the mode, applies it, and arms a save. */
    method IndividualScreensCheckBoxClicked(checked: bool)
      requires Valid()
      modifies this`useSeparateScreens, this`saveTimerTriggered, basic, screenList
      ensures Valid()
      ensures useSeparateScreens == checked
      ensures Records() == WithEnabled(old(Records()), checked)
      ensures basic.View() == old(basic.View()).(enabled := !checked)
      ensures SaveState() == Debounce.Next(old(SaveState()), Debounce.Edit)
    {
      if checked {
        useSeparateScreens := true;
      } else {
        useSeparateScreens := false;
      }
      ChangeTabs();
      TriggerSave();
    }

    /** The "enable dimming" check box of a tab: sets Show of that tab's record and arms no save. */
    method DimmingCheckBoxClicked(target: ScreenInfo, checked: bool)
      requires Valid() && (target == basic || target in screenList)
      modifies target
      ensures Valid()
      ensures target.View() == old(target.View()).(show := checked)
      ensures target.visible == (target.enabled && checked)
      ensures target != basic ==> basic.View() == old(basic.View())
      ensures forall k :: 0 <= k < |screenList| && screenList[k] != target ==>
        screenList[k].View() == old(screenList[k].View())
    {
      if checked {
        target.SetShow(true);
      } else {
        target.SetShow(false);
      }
    }

    /**
      The opacity track bar and number box of a tab: their range is 5 to 90 percent, so the
      Opacity setter always accepts the value; a save is armed.
    */
    method OpacityChanged(target: ScreenInfo, percent: int)
      requires Valid() && (target == basic || target in screenList)
      requires 5 <= percent <= 90
      modifies this`saveTimerTriggered, target
      ensures Valid()
      ensures target.View() == old(target.View()).(opacity := percent as real / 100.0)
      ensures target != basic ==> basic.View() == old(basic.View())
      ensures forall k :: 0 <= k < |screenList| && screenList[k] != target ==>
        screenList[k].View() == old(screenList[k].View())
      ensures SaveState() == Debounce.Next(old(SaveState()), Debounce.Edit)
    {
      var ok := target.SetOpacity(percent as real / 100.0);
      TriggerSave();
    }

    /**
      The "use default settings" button: every record is closed and dropped, the list is
      rebuilt from the live displays, the mode is applied, and a save is armed.
    */
    method UseDefaultButtonClicked(live: seq<Display>) returns (ok: bool)
      requires Valid()
      modifies this`screenList, this`position, this`saveTimerTriggered, basic, screenList
      ensures Valid()
      ensures forall k :: 0 <= k < |old(screenList)| ==> !old(screenList)[k].hasOverlay
      ensures var d := Detect([], old(basic.View()), live, useSeparateScreens);
        && useSeparateScreens == old(useSeparateScreens)
        && ok == d.ok
        && (!ok ==> Records() == d.records && basic.View() == d.basic && SaveState() == old(SaveState()))
        && (ok ==> && Records() == WithEnabled(d.records, useSeparateScreens)
                   && basic.View() == d.basic.(enabled := !useSeparateScreens)
                   && SaveState() == Debounce.Next(old(SaveState()), Debounce.Edit))
    {
      ClearScreenList();
      ok := DetectScreens(live);
      if !ok { return; }
      ChangeTabs();
      TriggerSave();
    }

    /**
      The "detect screens" button: DetectScreens on the current list, then the mode is
      applied to the rebuilt tabs and a save is armed.
    */
    method DetectScreensButtonClicked(live: seq<Display>) returns (ok: bool)
      requires Valid()
      modifies this`screenList, this`position, this`saveTimerTriggered, basic, screenList
      ensures Valid()
      ensures var d := Detect(old(Records()), old(basic.View()), live, useSeparateScreens);
        && useSeparateScreens == old(useSeparateScreens)
        && ok == d.ok
        && (!ok ==> Records() == d.records && basic.View() == d.basic && SaveState() == old(SaveState()))
        && (ok ==> && Records() == WithEnabled(d.records, useSeparateScreens)
                   && basic.View() == d.basic.(enabled := !useSeparateScreens)
                   && SaveState() == Debounce.Next(old(SaveState()), Debounce.Edit))
    {
      ok := DetectScreens(live);
      if !ok { return; }
      ChangeTabs();
      TriggerSave();
    }
  }
}
