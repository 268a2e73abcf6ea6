/**
  The settings file: what OptionsForm.SaveSettings writes, and what the OptionsForm(XDocument)
  constructor reads back, on the typed document of module SettingsDocument.

  The basic region is stored by its edges (right = OriginX + ResolutionX, down = OriginY +
  ResolutionY) and read back by subtracting the origin again, both in wrapping 32-bit
  arithmetic. Every per-screen element is stored whatever its name; at load, an element is
  parsed first and only then kept or dropped by whether a live display has its name.
*/
module Persistence {
  import opened Wrappers
  import opened SettingsDocument
  import opened Screens
  import opened Reconciliation

  /** Unchecked C# int arithmetic: the result reduced into the 32-bit range. */
  function Wrap32(v: int): (r: int)
    ensures IsInt32(r)
    ensures IsInt32(v) ==> r == v
  {
    (v - Int32Min) % 0x1_0000_0000 + Int32Min
  }

  /**
    Only a value outside the 32-bit range wraps, and then it lands at least 20000 away from
    the resolution bounds: subtracting an accepted origin from a parsed edge gives a
    resolution the setter accepts exactly when the exact difference is one.
  */
  lemma WrapHarmless(edge: int, origin: int)
    requires IsInt32(edge)
    requires MinOriginX <= origin <= MaxOriginX
    ensures ResolutionInRange(Wrap32(edge - origin)) <==> ResolutionInRange(edge - origin)
  {
    var v := edge - origin;
    if v > Int32Max {
      assert Wrap32(v) == v - 0x1_0000_0000;
    } else if v < Int32Min {
      assert Wrap32(v) == v + 0x1_0000_0000;
    }
  }

  /** The record both OptionsForm constructors start the aggregate region from. */
  function InitialBasic(): Record {
    Record("basic", 0, 0, 0, 0, 0, ClampOpacity(DefaultOpacity), false, false)
  }

  // ---------------------------------------------------------------------------
  // SaveSettings

  /** One "screen" element; the Enabled flag is not stored, Show is stored as "enabled". */
  function EncodeScreen(r: Record): ScreenElement {
    ScreenElement(r.name, IntText(r.index), IntText(r.originX), IntText(r.originY),
                  IntText(r.resX), IntText(r.resY), RealText(r.opacity), BoolText(r.show))
  }

  function EncodeScreens(recs: seq<Record>): (es: seq<ScreenElement>)
    ensures |es| == |recs|
    ensures forall k :: 0 <= k < |recs| ==> es[k] == EncodeScreen(recs[k])
  {
    seq(|recs|, k requires 0 <= k < |recs| => EncodeScreen(recs[k]))
  }

  /** The document SaveSettings writes for a mode, a basic record and the screen list. */
  function Encode(separate: bool, basic: Record, recs: seq<Record>): Document {
    Document(
      Some(OptionsElement(BoolText(separate))),
      Some(BasicElement(IntText(basic.originX), IntText(basic.originY),
                        IntText(Wrap32(basic.originX + basic.resX)),
                        IntText(Wrap32(basic.originY + basic.resY)),
                        RealText(basic.opacity), BoolText(basic.show))),
      EncodeScreens(recs))
  }

  // ---------------------------------------------------------------------------
  // The loader

  /** A record as far as the loader got, and the exception that stopped it, if any. */
  datatype Partial = Partial(record: Record, error: Option<LoadError>)

  /** The left and up edges, into OriginX and OriginY. */
  function LoadOrigin(b: Record, e: BasicElement): (p: Partial)
    ensures p.record.name == b.name && p.record.index == b.index
  {
    match ParseInt32(e.left)
    case Failure(err) => Partial(b, Some(err))
    case Success(left) =>
    match AssignOriginX(b, left)
    case Failure(err) => Partial(b, Some(err))
    case Success(b1) =>
    match ParseInt32(e.up)
    case Failure(err) => Partial(b1, Some(err))
    case Success(up) =>
    match AssignOriginY(b1, up)
    case Failure(err) => Partial(b1, Some(err))
    case Success(b2) => Partial(b2, None)
  }

  /** The right and down edges, less the origin just read, into ResolutionX and ResolutionY. */
  function LoadSize(b: Record, e: BasicElement): (p: Partial)
    ensures p.record.name == b.name && p.record.index == b.index
  {
    match ParseInt32(e.right)
    case Failure(err) => Partial(b, Some(err))
    case Success(right) =>
    match AssignResolutionX(b, Wrap32(right - b.originX))
    case Failure(err) => Partial(b, Some(err))
    case Success(b1) =>
    match ParseInt32(e.down)
    case Failure(err) => Partial(b1, Some(err))
    case Success(down) =>
    match AssignResolutionY(b1, Wrap32(down - b1.originY))
    case Failure(err) => Partial(b1, Some(err))
    case Success(b2) => Partial(b2, None)
  }

  /** The enabled text into Show, then the opacity through its checked setter, then Enabled from the mode. */
  function LoadLook(b: Record, e: BasicElement, separate: bool): (p: Partial)
    ensures p.record.name == b.name && p.record.index == b.index
  {
    match ParseBool(e.enabled)
    case Failure(err) => Partial(b, Some(err))
    case Success(show) =>
    var b1 := b.(show := show);
    match ParseReal(e.opacity)
    case Failure(err) => Partial(b1, Some(err))
    case Success(o) =>
    match AssignOpacity(b1, o)
    case Failure(err) => Partial(b1, Some(err))
    case Success(b2) => Partial(b2.(enabled := !separate), None)
  }

  /**
    The "basicScreen" part of the loader: left, up, right, down, enabled (into Show) and
    opacity, each parsed and then passed to its property setter, in that order; the first
    failure stops it with the assignments made so far. Enabled is set to the opposite of the
    mode last.
  */
  function LoadBasic(b: Record, e: BasicElement, separate: bool): (p: Partial)
    ensures p.record.name == b.name && p.record.index == b.index
  {
    var p1 := LoadOrigin(b, e);
    if p1.error.Some? then p1
    else
      var p2 := LoadSize(p1.record, e);
      if p2.error.Some? then p2
      else LoadLook(p2.record, e, separate)
  }

  datatype Header = Header(separate: bool, basic: Record, error: Option<LoadError>)

  /**
    The first try block of the loader: the first "options" and "basicScreen" elements must
    exist, then separateScreens is parsed, then the basic screen is read. A failed parse of
    separateScreens leaves the mode at its default, aggregated.
  */
  function LoadHeader(doc: Document, b: Record): (h: Header)
    ensures (doc.options.None? || doc.basic.None?) ==> h == Header(false, b, Some(MissingElement))
    ensures h.error.None? ==> doc.options.Some? && doc.options.value.separateScreens == BoolText(h.separate)
  {
    if doc.options.None? || doc.basic.None? then Header(false, b, Some(MissingElement))
    else
      match ParseBool(doc.options.value.separateScreens)
      case Failure(err) => Header(false, b, Some(err))
      case Success(separate) =>
        var p := LoadBasic(b, doc.basic.value, separate);
        Header(separate, p.record, p.error)
  }

  datatype ScreensLoad = ScreensLoad(records: seq<Record>, error: Option<LoadError>)

  /**
    One pass of the foreach over the "screen" elements, appending to `acc`: the element is
    read by the ScreenInfo(XElement) constructor and enabled in separate-screen mode; if a live
    display has its name it is appended, and then its "enabled" text is parsed and, when true,
    sets Show. An error is the exception that ends the loop, with the list as it is.
  */
  function LoadElement(acc: seq<Record>, e: ScreenElement, live: seq<Display>, separate: bool): (l: ScreensLoad)
    ensures l.records == acc || (|l.records| == |acc| + 1 && l.records[..|acc|] == acc)
  {
    match ReadScreen(e)
    case Failure(err) => ScreensLoad(acc, Some(err))
    case Success(r0) =>
      var r := if separate then r0.(enabled := true) else r0;
      if !Attached(r.name, live) then ScreensLoad(acc, None)
      else
        match ParseBool(e.enabled)
        case Failure(err) => ScreensLoad(acc + [r], Some(err))
        case Success(show) => ScreensLoad(acc + [if show then r.(show := true) else r], None)
  }

  /** The foreach over the "screen" elements: element by element until the first failure. */
  function LoadScreens(acc: seq<Record>, elems: seq<ScreenElement>, live: seq<Display>, separate: bool): (l: ScreensLoad)
    ensures |acc| <= |l.records| && l.records[..|acc|] == acc
    decreases |elems|
  {
    if |elems| == 0 then ScreensLoad(acc, None)
    else
      var step := LoadElement(acc, elems[0], live, separate);
      if step.error.Some? then step
      else
        var l := LoadScreens(step.records, elems[1..], live, separate);
        assert l.records[..|acc|] == l.records[..|step.records|][..|acc|];
        l
  }

  /** The screen loop from position i on is one element's pass followed by the rest of the loop. */
  lemma LoadScreensAt(acc: seq<Record>, elems: seq<ScreenElement>, i: nat, live: seq<Display>, separate: bool)
    requires i < |elems|
    ensures var step := LoadElement(acc, elems[i], live, separate);
      LoadScreens(acc, elems[i..], live, separate)
        == if step.error.Some? then step else LoadScreens(step.records, elems[i + 1..], live, separate)
  {
    assert elems[i..][0] == elems[i] && elems[i..][1..] == elems[i + 1..];
  }

  /** What the loader reads before deciding whether to fall back to the default settings. */
  datatype Loaded = Loaded(separate: bool, basic: Record, records: seq<Record>, error: Option<LoadError>)

  function Load(doc: Document, live: seq<Display>): Loaded {
    var h := LoadHeader(doc, InitialBasic());
    if h.error.Some? then Loaded(h.separate, h.basic, [], h.error)
    else
      var s := LoadScreens([], doc.screens, live, h.separate);
      Loaded(h.separate, h.basic, s.records, s.error)
  }

  // ---------------------------------------------------------------------------
  // Properties of the loader

  /** A record the loader produces: attached, within the setter bounds, opacity clamped, Enabled as the mode says. */
  predicate Admitted(r: Record, live: seq<Display>, separate: bool) {
    && Attached(r.name, live)
    && GeometryInRange(r.originX, r.originY, r.resX, r.resY)
    && IsInt32(r.index)
    && 0.0 <= r.opacity <= MaxOpacity
    && r.enabled == separate
  }

  /**
    The screen loop appends only admitted records: a stored screen whose name no live
    display has is never kept, and in separate-screen mode every kept record is Enabled.
  */
  predicate AdmittedFrom(recs: seq<Record>, from: int, live: seq<Display>, separate: bool) {
    forall k :: from <= k < |recs| && 0 <= k ==> Admitted(recs[k], live, separate)
  }

  lemma {:induction false} LoadScreensAdmits(acc: seq<Record>, elems: seq<ScreenElement>, live: seq<Display>, separate: bool)
    ensures AdmittedFrom(LoadScreens(acc, elems, live, separate).records, |acc|, live, separate)
    decreases |elems|
  {
    if |elems| > 0 && ReadScreen(elems[0]).Success? {
      var r0 := ReadScreen(elems[0]).value;
      var r := if separate then r0.(enabled := true) else r0;
      if !Attached(r.name, live) {
        LoadScreensAdmits(acc, elems[1..], live, separate);
      } else {
        assert Admitted(r, live, separate);
        if ParseBool(elems[0].enabled).Success? {
          var show := ParseBool(elems[0].enabled).value;
          var r' := if show then r.(show := true) else r;
          LoadScreensAdmits(acc + [r'], elems[1..], live, separate);
          var l := LoadScreens(acc + [r'], elems[1..], live, separate);
          assert l.records[..|acc| + 1] == acc + [r'];
          assert l.records[|acc|] == (acc + [r'])[|acc|];
        }
      }
    }
  }

  /**
    The screen loop fails exactly when some element cannot be read, or some element whose
    name is attached has an "enabled" text that is not a boolean; unattached elements are
    parsed as well, so a bad one of those also fails the load.
  */
  lemma {:induction false} LoadScreensFails(acc: seq<Record>, elems: seq<ScreenElement>, live: seq<Display>, separate: bool)
    ensures LoadScreens(acc, elems, live, separate).error.None? <==>
      forall e :: e in elems ==> ReadScreen(e).Success? && (Attached(e.name, live) ==> e.enabled.BoolText?)
    decreases |elems|
  {
    if |elems| > 0 {
      var e0 := elems[0];
      assert forall e :: e in elems ==> e == e0 || e in elems[1..];
      assert forall e :: e in elems[1..] ==> e in elems;
      if ReadScreen(e0).Success? {
        var r0 := ReadScreen(e0).value;
        var r := if separate then r0.(enabled := true) else r0;
        assert r.name == e0.name;
        if !Attached(r.name, live) {
          LoadScreensFails(acc, elems[1..], live, separate);
        } else if ParseBool(e0.enabled).Success? {
          var show := ParseBool(e0.enabled).value;
          var r' := if show then r.(show := true) else r;
          LoadScreensFails(acc + [r'], elems[1..], live, separate);
        }
      }
    }
  }

  /** Every record of a load that succeeded is admitted. */
  lemma LoadAdmits(doc: Document, live: seq<Display>)
    ensures var l := Load(doc, live);
      l.error.None? ==> forall k :: 0 <= k < |l.records| ==> Admitted(l.records[k], live, l.separate)
  {
    var h := LoadHeader(doc, InitialBasic());
    if h.error.None? {
      LoadScreensAdmits([], doc.screens, live, h.separate);
      assert Load(doc, live).records == LoadScreens([], doc.screens, live, h.separate).records;
    }
  }

  /**
    A "basicScreen" element the loader accepts: every text parses, the edges are 32-bit
    values, the origin and the size right - left, down - up lie within the setter bounds,
    and so does the opacity.
  */
  predicate BasicReadable(e: BasicElement) {
    && e.left.IntText? && e.up.IntText? && e.right.IntText? && e.down.IntText?
    && e.enabled.BoolText? && e.opacity.RealText?
    && IsInt32(e.right.denotes) && IsInt32(e.down.denotes)
    && GeometryInRange(e.left.denotes, e.up.denotes,
                       e.right.denotes - e.left.denotes, e.down.denotes - e.up.denotes)
    && OpacityInRange(e.opacity.number)
  }

  /** A document whose header the loader accepts. */
  predicate HeaderReadable(doc: Document) {
    && doc.options.Some? && doc.basic.Some?
    && doc.options.value.separateScreens.BoolText?
    && BasicReadable(doc.basic.value)
  }

  /** The origin stage accepts exactly two parsed edges within the origin bounds, and stores them. */
  lemma LoadOriginExact(b: Record, e: BasicElement)
    ensures var p := LoadOrigin(b, e);
      && (p.error.None? <==> e.left.IntText? && e.up.IntText? && OriginXInRange(e.left.denotes) && OriginYInRange(e.up.denotes))
      && (p.error.None? ==> p.record == b.(originX := e.left.denotes, originY := e.up.denotes))
      && p.error != Some(MissingElement)
  {
  }

  /** The size stage, after an accepted origin, accepts exactly sizes right - left and down - up within bounds, and stores them. */
  lemma LoadSizeExact(b: Record, e: BasicElement)
    requires OriginXInRange(b.originX) && OriginYInRange(b.originY)
    ensures var p := LoadSize(b, e);
      && (p.error.None? <==>
            && e.right.IntText? && e.down.IntText? && IsInt32(e.right.denotes) && IsInt32(e.down.denotes)
            && ResolutionInRange(e.right.denotes - b.originX) && ResolutionInRange(e.down.denotes - b.originY))
      && (p.error.None? ==> p.record == b.(resX := e.right.denotes - b.originX, resY := e.down.denotes - b.originY))
      && p.error != Some(MissingElement)
  {
    if e.right.IntText? && IsInt32(e.right.denotes) {
      WrapHarmless(e.right.denotes, b.originX);
    }
    if e.down.IntText? && IsInt32(e.down.denotes) {
      WrapHarmless(e.down.denotes, b.originY);
    }
  }

  /** The last stage accepts exactly a boolean Show and an opacity within bounds, and stores them with Enabled. */
  lemma LoadLookExact(b: Record, e: BasicElement, separate: bool)
    ensures var p := LoadLook(b, e, separate);
      && (p.error.None? <==> e.enabled.BoolText? && e.opacity.RealText? && OpacityInRange(e.opacity.number))
      && (p.error.None? ==> p.record == b.(show := e.enabled.truth, opacity := e.opacity.number, enabled := !separate))
      && p.error != Some(MissingElement)
  {
  }

  /**
    The header is read exactly when it is readable, and then the basic record takes the
    stored edges as origin and size, the stored Show and opacity, and Enabled opposite to the
    stored mode. Only a missing element gives MissingElement.
  */
  lemma LoadHeaderExact(doc: Document, b: Record)
    ensures var h := LoadHeader(doc, b);
      && (h.error.None? <==> HeaderReadable(doc))
      && (h.error == Some(MissingElement) <==> doc.options.None? || doc.basic.None?)
      && (h.error.None? ==>
            var e := doc.basic.value;
            && h.separate == doc.options.value.separateScreens.truth
            && h.basic == b.(originX := e.left.denotes, originY := e.up.denotes,
                             resX := e.right.denotes - e.left.denotes, resY := e.down.denotes - e.up.denotes,
                             show := e.enabled.truth, opacity := e.opacity.number,
                             enabled := !h.separate))
  {
    if doc.options.Some? && doc.basic.Some? && doc.options.value.separateScreens.BoolText? {
      var e := doc.basic.value;
      var separate := doc.options.value.separateScreens.truth;
      var p1 := LoadOrigin(b, e);
      LoadOriginExact(b, e);
      if p1.error.None? {
        var p2 := LoadSize(p1.record, e);
        LoadSizeExact(p1.record, e);
        if p2.error.None? {
          LoadLookExact(p2.record, e, separate);
        }
      }
    }
  }

  /**
    The whole loader succeeds exactly when the header is readable and the screen loop meets
    the condition of LoadScreensFails; otherwise the constructor falls back to detection.
  */
  lemma LoadSucceeds(doc: Document, live: seq<Display>)
    ensures Load(doc, live).error.None? <==>
      && HeaderReadable(doc)
      && forall e :: e in doc.screens ==> ReadScreen(e).Success? && (Attached(e.name, live) ==> e.enabled.BoolText?)
  {
    LoadHeaderExact(doc, InitialBasic());
    var h := LoadHeader(doc, InitialBasic());
    if h.error.None? {
      LoadScreensFails([], doc.screens, live, h.separate);
    }
  }

  /** A state whose save the loader reads back unchanged. */
  predicate Restorable(separate: bool, basic: Record, recs: seq<Record>, live: seq<Display>) {
    && basic.name == "basic" && basic.index == 0
    && GeometryInRange(basic.originX, basic.originY, basic.resX, basic.resY)
    && OpacityInRange(basic.opacity)
    && (forall k :: 0 <= k < |recs| ==> Admitted(recs[k], live, separate))
  }

  /** An admitted record's "screen" element is read back as that record and appended. */
  lemma LoadEncodedElement(acc: seq<Record>, r: Record, live: seq<Display>, separate: bool)
    requires Admitted(r, live, separate)
    ensures LoadElement(acc, EncodeScreen(r), live, separate) == ScreensLoad(acc + [r], None)
  {
    assert ReadScreen(EncodeScreen(r)) == Success(r.(show := false, enabled := false));
  }

  /** The screen loop from the i-th element of admitted records on reads back the rest of them. */
  lemma {:induction false} LoadScreensRoundTripFrom(acc: seq<Record>, recs: seq<Record>, i: nat, live: seq<Display>, separate: bool)
    requires i <= |recs|
    requires forall k :: 0 <= k < |recs| ==> Admitted(recs[k], live, separate)
    ensures LoadScreens(acc + recs[..i], EncodeScreens(recs)[i..], live, separate) == ScreensLoad(acc + recs, None)
    decreases |recs| - i
  {
    var es := EncodeScreens(recs);
    if i == |recs| {
      assert recs[..i] == recs;
    } else {
      LoadScreensAt(acc + recs[..i], es, i, live, separate);
      LoadEncodedElement(acc + recs[..i], recs[i], live, separate);
      assert acc + recs[..i] + [recs[i]] == acc + recs[..i + 1];
      LoadScreensRoundTripFrom(acc, recs, i + 1, live, separate);
    }
  }

  /** The screen loop reads the elements of admitted records back as those records. */
  lemma LoadScreensRoundTrip(acc: seq<Record>, recs: seq<Record>, live: seq<Display>, separate: bool)
    requires forall k :: 0 <= k < |recs| ==> Admitted(recs[k], live, separate)
    ensures LoadScreens(acc, EncodeScreens(recs), live, separate) == ScreensLoad(acc + recs, None)
  {
    LoadScreensRoundTripFrom(acc, recs, 0, live, separate);
    assert acc + recs[..0] == acc;
    assert EncodeScreens(recs)[0..] == EncodeScreens(recs);
  }

  /**
    Save then load is the identity on a restorable state: the basic region comes back from
    its stored edges (right - left and down - up), every screen record comes back in order,
    and the basic record is Enabled exactly in aggregated mode.
  */
  lemma RoundTrip(separate: bool, basic: Record, recs: seq<Record>, live: seq<Display>)
    requires Restorable(separate, basic, recs, live)
    ensures Load(Encode(separate, basic, recs), live) == Loaded(separate, basic.(enabled := !separate), recs, None)
  {
    var doc := Encode(separate, basic, recs);
    assert Wrap32(basic.originX + basic.resX) - basic.originX == basic.resX;
    assert Wrap32(basic.originY + basic.resY) - basic.originY == basic.resY;
    assert LoadHeader(doc, InitialBasic()) == Header(separate, basic.(enabled := !separate), None);
    LoadScreensRoundTrip([], recs, live, separate);
    assert [] + recs == recs;
  }

  // ---------------------------------------------------------------------------
  // The fallback

  /** The records a detection pass creates on an empty list: one per display, numbered from one. */
  function Numbered(live: seq<Display>, first: int, separate: bool): (recs: seq<Record>)
    ensures |recs| == |live|
    ensures forall k :: 0 <= k < |live| ==> recs[k] == NewRecord(live[k], first + k, separate)
  {
    seq(|live|, k requires 0 <= k < |live| => NewRecord(live[k], first + k, separate))
  }

  /** Indices 1 to n in order leave n + 1 as the least free index. */
  lemma LeastFreeAfterNumbered(recs: seq<Record>)
    requires forall k :: 0 <= k < |recs| ==> recs[k].index == k + 1
    ensures LeastFreeIndex(recs) == |recs| + 1
  {
    forall v | 1 <= v <= |recs| ensures v in Indices(recs) {
      assert recs[v - 1].index == v;
    }
    forall k | 0 <= k < |recs| ensures recs[k].index != |recs| + 1 {
    }
    assert |recs| + 1 !in Indices(recs);
    var r := LeastFreeIndex(recs);
    assert r !in Indices(recs);
    assert r > |recs|;
  }

  /** Visiting a display no record names appends its record with the next number. */
  lemma VisitNumbered(s: Scan, d: Display, separate: bool)
    requires DisplayInRange(d)
    requires forall k :: 0 <= k < |s.records| ==> s.records[k].index == k + 1
    requires Lookup(s.records, d.deviceName) == |s.records|
    ensures Visit(s, d, separate).ok
    ensures Visit(s, d, separate).scan.records == s.records + [NewRecord(d, |s.records| + 1, separate)]
  {
    LeastFreeAfterNumbered(s.records);
  }

  /** A name missing from a list is missing from it after appending a record of another name. */
  lemma LookupAppendMiss(recs: seq<Record>, r: Record, name: string)
    requires Lookup(recs, name) == |recs|
    requires r.name != name
    ensures Lookup(recs + [r], name) == |recs| + 1
  {
    var rs := recs + [r];
    forall k | 0 <= k < |rs| ensures rs[k].name != name {
      if k < |recs| {
        assert rs[k] == recs[k];
      }
    }
  }

  lemma NumberedCons(live: seq<Display>, first: int, separate: bool)
    requires |live| > 0
    ensures Numbered(live, first, separate) == [NewRecord(live[0], first, separate)] + Numbered(live[1..], first + 1, separate)
  {
  }

  lemma DistinctTail(live: seq<Display>)
    requires |live| > 0 && DistinctNames(live)
    ensures DistinctNames(live[1..])
  {
    var rest := live[1..];
    forall i, j | 0 <= i < j < |rest| ensures rest[i].deviceName != rest[j].deviceName {
      assert rest[i] == live[i + 1] && rest[j] == live[j + 1];
    }
  }

  /** The names of the later displays stay unrecorded once the first display's record is appended. */
  lemma RestUnrecorded(recs: seq<Record>, live: seq<Display>, separate: bool)
    requires |live| > 0 && DistinctNames(live)
    requires forall d :: d in live ==> Lookup(recs, d.deviceName) == |recs|
    ensures var u := recs + [NewRecord(live[0], |recs| + 1, separate)];
      forall d :: d in live[1..] ==> Lookup(u, d.deviceName) == |u|
  {
    var rest := live[1..];
    forall d | d in rest
      ensures Lookup(recs + [NewRecord(live[0], |recs| + 1, separate)], d.deviceName) == |recs| + 1
    {
      var j :| 0 <= j < |rest| && rest[j] == d;
      assert live[j + 1] == d;
      LookupAppendMiss(recs, NewRecord(live[0], |recs| + 1, separate), d.deviceName);
    }
  }

  /** Indices 1 to n in order stay so when a record with index n + 1 is appended. */
  lemma NumberedAppend(recs: seq<Record>, x: Record)
    requires forall k :: 0 <= k < |recs| ==> recs[k].index == k + 1
    requires x.index == |recs| + 1
    ensures forall k :: 0 <= k < |recs + [x]| ==> (recs + [x])[k].index == k + 1
  {
  }

  /** Appending the first display's record, then the others numbered on, numbers them all. */
  lemma NumberedStep(recs: seq<Record>, live: seq<Display>, separate: bool)
    requires |live| > 0
    ensures (recs + [NewRecord(live[0], |recs| + 1, separate)]) + Numbered(live[1..], |recs| + 2, separate)
      == recs + Numbered(live, |recs| + 1, separate)
  {
    var x := NewRecord(live[0], |recs| + 1, separate);
    var n := Numbered(live[1..], |recs| + 2, separate);
    NumberedCons(live, |recs| + 1, separate);
    assert (recs + [x]) + n == recs + ([x] + n);
  }

  lemma {:induction false} SweepFromNumbered(s: Scan, live: seq<Display>, separate: bool)
    requires DistinctNames(live)
    requires forall d :: d in live ==> DisplayInRange(d)
    requires forall k :: 0 <= k < |s.records| ==> s.records[k].index == k + 1
    requires forall d :: d in live ==> Lookup(s.records, d.deviceName) == |s.records|
    ensures Sweep(s, live, separate).scan.records == s.records + Numbered(live, |s.records| + 1, separate)
    decreases |live|
  {
    if |live| == 0 {
      assert s.records + Numbered(live, |s.records| + 1, separate) == s.records;
    } else {
      var d0 := live[0];
      var rest := live[1..];
      assert d0 in live;
      VisitNumbered(s, d0, separate);
      var t := Visit(s, d0, separate);
      var x := NewRecord(d0, |s.records| + 1, separate);
      var u := t.scan.records;
      NumberedAppend(s.records, x);
      DistinctTail(live);
      RestUnrecorded(s.records, live, separate);
      assert forall d :: d in rest ==> d in live;
      SweepFromNumbered(t.scan, rest, separate);
      SweepOnward(s, live, separate);
      NumberedStep(s.records, live, separate);
    }
  }

  /**
    The fallback: after the list has been cleared, DetectScreens over displays with distinct
    names inside the setter bounds creates exactly one record per display, in display order,
    with indices 1, 2, ... and DEFAULT_OPACITY.
  */
  lemma RedetectFromEmpty(basic: Record, live: seq<Display>, separate: bool)
    requires DistinctNames(live)
    requires forall d :: d in live ==> DisplayInRange(d)
    ensures Detect([], basic, live, separate).records == Numbered(live, 1, separate)
  {
    var s := Scan([], false, Seed);
    SweepOkInRange(s, live, separate);
    SweepFromNumbered(s, live, separate);
    assert [] + Numbered(live, 1, separate) == Numbered(live, 1, separate);
  }
}
