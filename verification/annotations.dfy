/**
 * The data-annotation attributes both front ends put on their records, with the
 * meaning `System.ComponentModel.DataAnnotations` gives them when it validates a
 * value, and the result type of `IValidatableObject.Validate`.
 */
module Annotations {
  import Text

  /** One failure reported by validation, attributed to the named members. */
  datatype ValidationResult = ValidationResult(ErrorMessage: string, MemberNames: seq<string>)

  /**
   * `Convert.ToInt32(double)`: round to the nearest integer, halves to the even
   * neighbour. (Values outside the 32-bit range throw in .NET; see README.)
   */
  function RoundHalfEven(x: real): (n: int)
    ensures x - 0.5 <= n as real <= x + 0.5
    ensures n as real == x - 0.5 || n as real == x + 0.5 ==> n % 2 == 0
  {
    var f := x.Floor;
    var d := x - f as real;
    if d < 0.5 then f
    else if d > 0.5 then f + 1
    else if f % 2 == 0 then f
    else f + 1
  }

  /**
   * `[Range(min, max)]` with `int` bounds on a `double` property: the attribute
   * converts the value with `Convert.ToInt32` and then compares inclusively.
   */
  predicate RangeAcceptsReal(min: int, max: int, v: real) {
    min <= RoundHalfEven(v) <= max
  }

  /** `[Range(min, max)]` on an `int` property: an inclusive comparison. */
  predicate RangeAcceptsInt(min: int, max: int, v: int) {
    min <= v <= max
  }

  /** `[Required]` on a string (empty strings not allowed): the value is not null, empty or white space. */
  predicate RequiredAccepts(s: string) {
    !Text.IsBlank(s)
  }

  /** `[MaxLength(n)]` on a string: its `Length`, in UTF-16 code units, is at most `n`. */
  predicate MaxLengthAccepts(n: nat, s: string) {
    Text.Utf16Length(s) <= n
  }

  /**
   * With even bounds, `[Range(min, max)]` on a `double` accepts exactly the
   * closed interval widened by one half on each side.
   */
  lemma RangeAcceptsRealEvenBounds(min: int, max: int, v: real)
    requires min % 2 == 0 && max % 2 == 0
    ensures RangeAcceptsReal(min, max, v) <==> min as real - 0.5 <= v <= max as real + 0.5
  {
  }
}
