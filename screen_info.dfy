/**
  ScreenInfo: one dimmable region (a monitor, or the aggregate "basic" region) and the
  translucent overlay window it owns.

  The overlay window is not a separate object here: its location, size, opacity and
  visibility are fields of the record, and `hasOverlay` says whether the record still owns
  it (it is false once Destroy has closed it). The property setters of the source, which
  throw ArgumentOutOfRangeException, become methods that report rejection with `ok == false`
  and then leave the record as it was.
*/
module Screens {
  import opened Wrappers
  import opened SettingsDocument

  const MinOpacity: real := 0.05
  const MaxOpacity: real := 0.9
  const MinOriginX: int := -20000
  const MaxOriginX: int := 20000
  const MinOriginY: int := -10000
  const MaxOriginY: int := 10000
  const MinRes: int := 1
  const MaxRes: int := 10000

  predicate OriginXInRange(v: int) { MinOriginX <= v <= MaxOriginX }
  predicate OriginYInRange(v: int) { MinOriginY <= v <= MaxOriginY }
  predicate ResolutionInRange(v: int) { MinRes <= v <= MaxRes }
  predicate OpacityInRange(v: real) { MinOpacity <= v <= MaxOpacity }

  predicate GeometryInRange(x: int, y: int, width: int, height: int) {
    OriginXInRange(x) && OriginYInRange(y) && ResolutionInRange(width) && ResolutionInRange(height)
  }

  /** The observable state of a ScreenInfo (its property values). */
  datatype Record = Record(
    name: string, index: int,
    originX: int, originY: int, resX: int, resY: int,
    opacity: real, show: bool, enabled: bool)

  // The checked property setters, on values.

  function AssignOriginX(r: Record, v: int): Result<Record, LoadError> {
    if OriginXInRange(v) then Success(r.(originX := v)) else Failure(OutOfRange)
  }

  function AssignOriginY(r: Record, v: int): Result<Record, LoadError> {
    if OriginYInRange(v) then Success(r.(originY := v)) else Failure(OutOfRange)
  }

  function AssignResolutionX(r: Record, v: int): Result<Record, LoadError> {
    if ResolutionInRange(v) then Success(r.(resX := v)) else Failure(OutOfRange)
  }

  function AssignResolutionY(r: Record, v: int): Result<Record, LoadError> {
    if ResolutionInRange(v) then Success(r.(resY := v)) else Failure(OutOfRange)
  }

  function AssignOpacity(r: Record, v: real): Result<Record, LoadError> {
    if OpacityInRange(v) then Success(r.(opacity := v)) else Failure(OutOfRange)
  }

  /** The opacity correction both constructors apply: into [0, MaxOpacity], not [MinOpacity, MaxOpacity]. */
  function ClampOpacity(o: real): (r: real)
    ensures 0.0 <= r <= MaxOpacity
    ensures 0.0 <= o <= MaxOpacity ==> r == o
    ensures o > MaxOpacity ==> r == MaxOpacity
    ensures o < 0.0 ==> r == 0.0
  {
    if o > MaxOpacity then MaxOpacity else if o < 0.0 then 0.0 else o
  }

  /**
    The constructor ScreenInfo(XElement) on values: the fields are parsed in the order name,
    originX, originY, resX, resY, opacity, index (the first bad one throws), then a geometry
    value outside its bound rejects the record, while the opacity is only clamped.
  */
  function ReadScreen(e: ScreenElement): (r: Result<Record, LoadError>)
    ensures var parsed := ParseInt32(e.originX).Success? && ParseInt32(e.originY).Success?
                          && ParseInt32(e.resX).Success? && ParseInt32(e.resY).Success?
                          && ParseReal(e.opacity).Success? && ParseInt32(e.index).Success?;
      && (r.Success? <==> parsed && GeometryInRange(ParseInt32(e.originX).value, ParseInt32(e.originY).value,
                                                    ParseInt32(e.resX).value, ParseInt32(e.resY).value))
      && (parsed && r.Failure? ==> r.error == OutOfRange)
      && (r.Success? ==> r.value == Record(e.name, ParseInt32(e.index).value,
                                           ParseInt32(e.originX).value, ParseInt32(e.originY).value,
                                           ParseInt32(e.resX).value, ParseInt32(e.resY).value,
                                           ClampOpacity(ParseReal(e.opacity).value), false, false))
  {
    var x :- ParseInt32(e.originX);
    var y :- ParseInt32(e.originY);
    var w :- ParseInt32(e.resX);
    var h :- ParseInt32(e.resY);
    var o :- ParseReal(e.opacity);
    var index :- ParseInt32(e.index);
    if !GeometryInRange(x, y, w, h) then Failure(OutOfRange)
    else Success(Record(e.name, index, x, y, w, h, ClampOpacity(o), false, false))
  }

  class ScreenInfo {
    var name: string
    var screenIndex: int
    // the owned overlay window: its location, size, opacity and whether it is shown
    var originX: int
    var originY: int
    var resX: int
    var resY: int
    var opacity: real
    var visible: bool
    // false once Destroy has closed the window
    var hasOverlay: bool
    var showForm: bool
    var enabled: bool

    /** The overlay is on screen exactly when the record owns one, is enabled and is shown. */
    ghost predicate Valid()
      reads this
    {
      visible == (hasOverlay && enabled && showForm)
    }

    function View(): Record
      reads this
    {
      Record(name, screenIndex, originX, originY, resX, resY, opacity, showForm, enabled)
    }

    /** ScreenInfo(string, int, int, int, int, int, double): geometry is taken unchecked. */
    constructor (n: string, index: int, x: int, y: int, width: int, height: int, opacity0: real)
      ensures Valid() && hasOverlay && !visible
      ensures View() == Record(n, index, x, y, width, height, ClampOpacity(opacity0), false, false)
    {
      name := n;
      screenIndex := index;
      showForm := false;
      enabled := false;
      var o := opacity0;
      if o > MaxOpacity {
        o := MaxOpacity;
      } else if o < 0.0 {
        o := 0.0;
      }
      originX, originY, resX, resY, opacity := x, y, width, height, o;
      hasOverlay := true;
      visible := false;
    }

    /**
      ScreenInfo(XElement): either the exception the constructor throws, or a new record
      holding the element's values, not shown and not enabled.
    */
    static method FromElement(e: ScreenElement) returns (r: Result<ScreenInfo, LoadError>)
      ensures r.Failure? ==> ReadScreen(e) == Failure(r.error)
      ensures r.Success? ==> ReadScreen(e) == Success(r.value.View())
      ensures r.Success? ==> fresh(r.value) && r.value.Valid() && r.value.hasOverlay && !r.value.visible
    {
      var x := ParseInt32(e.originX);
      if x.Failure? { return Failure(x.error); }
      var y := ParseInt32(e.originY);
      if y.Failure? { return Failure(y.error); }
      var w := ParseInt32(e.resX);
      if w.Failure? { return Failure(w.error); }
      var h := ParseInt32(e.resY);
      if h.Failure? { return Failure(h.error); }
      var o := ParseReal(e.opacity);
      if o.Failure? { return Failure(o.error); }
      var index := ParseInt32(e.index);
      if index.Failure? { return Failure(index.error); }
      if !OriginXInRange(x.value) || !OriginYInRange(y.value)
        || !ResolutionInRange(w.value) || !ResolutionInRange(h.value) {
        return Failure(OutOfRange);
      }
      var opacity := o.value;
      if opacity > MaxOpacity {
        opacity := MaxOpacity;
      } else if opacity < 0.0 {
        opacity := 0.0;
      }
      var s := new ScreenInfo(e.name, index.value, x.value, y.value, w.value, h.value, opacity);
      return Success(s);
    }

    method SetOriginX(v: int) returns (ok: bool)
      requires Valid() && hasOverlay
      modifies this
      ensures Valid() && hasOverlay && visible == old(visible)
      ensures ok == OriginXInRange(v)
      ensures View() == if ok then old(View()).(originX := v) else old(View())
    {
      ok := OriginXInRange(v);
      if ok {
        originX := v;
      }
    }

    method SetOriginY(v: int) returns (ok: bool)
      requires Valid() && hasOverlay
      modifies this
      ensures Valid() && hasOverlay && visible == old(visible)
      ensures ok == OriginYInRange(v)
      ensures View() == if ok then old(View()).(originY := v) else old(View())
    {
      ok := OriginYInRange(v);
      if ok {
        originY := v;
      }
    }

    method SetResolutionX(v: int) returns (ok: bool)
      requires Valid() && hasOverlay
      modifies this
      ensures Valid() && hasOverlay && visible == old(visible)
      ensures ok == ResolutionInRange(v)
      ensures View() == if ok then old(View()).(resX := v) else old(View())
    {
      ok := ResolutionInRange(v);
      if ok {
        resX := v;
      }
    }

    method SetResolutionY(v: int) returns (ok: bool)
      requires Valid() && hasOverlay
      modifies this
      ensures Valid() && hasOverlay && visible == old(visible)
      ensures ok == ResolutionInRange(v)
      ensures View() == if ok then old(View()).(resY := v) else old(View())
    {
      ok := ResolutionInRange(v);
      if ok {
        resY := v;
      }
    }

    method SetOpacity(v: real) returns (ok: bool)
      requires Valid() && hasOverlay
      modifies this
      ensures Valid() && hasOverlay && visible == old(visible)
      ensures ok == OpacityInRange(v)
      ensures View() == if ok then old(View()).(opacity := v) else old(View())
    {
      ok := OpacityInRange(v);
      if ok {
        opacity := v;
      }
    }

    /** The Show setter: records the user's wish and shows or hides the overlay accordingly. */
    method SetShow(b: bool)
      requires Valid() && hasOverlay
      modifies this
      ensures Valid() && hasOverlay
      ensures View() == old(View()).(show := b)
      ensures visible == (enabled && b)
    {
      showForm := b;
      visible := enabled && showForm;
    }

    /** The Enabled setter: the mode's choice, with the same effect on the overlay. */
    method SetEnabled(b: bool)
      requires Valid() && hasOverlay
      modifies this
      ensures Valid() && hasOverlay
      ensures View() == old(View()).(enabled := b)
      ensures visible == (b && showForm)
    {
      enabled := b;
      visible := enabled && showForm;
    }

    /** Closes the overlay window and drops the reference to it. */
    method Destroy()
      requires hasOverlay
      modifies this
      ensures Valid() && !hasOverlay && !visible
      ensures View() == old(View())
    {
      visible := false;
      hasOverlay := false;
    }
  }
}
