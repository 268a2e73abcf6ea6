/**
  The settings file ("settings.xml") as already-parsed values.

  The XML text itself is not modelled. Each numeric or boolean element is represented by
  what its text denotes, or by the fact that it denotes nothing of the required kind, so
  that the outcome of Int32.Parse, Boolean.Parse and Double.Parse can be stated exactly.
*/
module SettingsDocument {
  import opened Wrappers

  const Int32Min: int := -0x8000_0000
  const Int32Max: int := 0x7FFF_FFFF

  predicate IsInt32(v: int) {
    Int32Min <= v <= Int32Max
  }

  /** The exception classes the loader catches, in the order of its catch clauses. */
  datatype LoadError =
    | MissingElement   // InvalidOperationException: no "options" or no "basicScreen" element
    | Malformed        // FormatException: text that is not a number or a boolean
    | Overflow         // OverflowException: an integer outside the 32-bit range
    | OutOfRange       // ArgumentOutOfRangeException: a value rejected by a ScreenInfo bound

  /** The text of an integer element: the integer it spells, or not an integer at all. */
  datatype IntText = IntText(denotes: int) | NotInt

  /** The text of a boolean element ("True"/"False" in any case), or something else. */
  datatype BoolText = BoolText(truth: bool) | NotBool

  /** The text of a floating-point element, as the real number it spells, or something else. */
  datatype RealText = RealText(number: real) | NotReal

  /** Int32.Parse: text that is no integer is a FormatException, one outside 32 bits an OverflowException. */
  function ParseInt32(t: IntText): (r: Result<int, LoadError>)
    ensures r.Success? <==> t.IntText? && IsInt32(t.denotes)
    ensures r.Success? ==> r.value == t.denotes
    ensures r.Failure? ==> r.error == (if t.NotInt? then Malformed else Overflow)
  {
    match t
    case NotInt => Failure(Malformed)
    case IntText(v) => if IsInt32(v) then Success(v) else Failure(Overflow)
  }

  function ParseBool(t: BoolText): (r: Result<bool, LoadError>)
    ensures r.Success? <==> t.BoolText?
    ensures r.Success? ==> r.value == t.truth
    ensures r.Failure? ==> r.error == Malformed
  {
    match t
    case NotBool => Failure(Malformed)
    case BoolText(b) => Success(b)
  }

  function ParseReal(t: RealText): (r: Result<real, LoadError>)
    ensures r.Success? <==> t.RealText?
    ensures r.Success? ==> r.value == t.number
    ensures r.Failure? ==> r.error == Malformed
  {
    match t
    case NotReal => Failure(Malformed)
    case RealText(x) => Success(x)
  }

  /** The "options" element. */
  datatype OptionsElement = OptionsElement(separateScreens: BoolText)

  /** The "basicScreen" element: the aggregate region stored by its edges, not by its size. */
  datatype BasicElement = BasicElement(
    left: IntText, up: IntText, right: IntText, down: IntText,
    opacity: RealText, enabled: BoolText)

  /** One "screen" element; "enabled" holds the record's Show flag. */
  datatype ScreenElement = ScreenElement(
    name: string, index: IntText,
    originX: IntText, originY: IntText, resX: IntText, resY: IntText,
    opacity: RealText, enabled: BoolText)

  /**
    A settings document: the first "options" element and the first "basicScreen" element,
    when there are any, and every "screen" element in document order.
  */
  datatype Document = Document(
    options: Option<OptionsElement>,
    basic: Option<BasicElement>,
    screens: seq<ScreenElement>)
}
