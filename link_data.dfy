/** The generic current/maximum pair every link kind is reported as, and how it is shown. */
module LinkDisplay {
  import opened Wrappers
  import opened Text

  /** A link's current mode and its maximum mode, or why the maximum is unknown. */
  datatype LinkData<T> = LinkData(current: T, max: Result<T, string>)

  /** The maximum is known and is not the current mode. */
  predicate HasDifferentMax<T(==)>(d: LinkData<T>)
  {
    d.max.Ok? && d.max.value != d.current
  }

  /** `Display`: "current / max" when the maximum is known and differs, otherwise just the
      current mode; `show` is the `Display` of the mode type. */
  function LinkDataToString<T(==)>(d: LinkData<T>, show: T -> string): (s: string)
    ensures HasDifferentMax(d) ==> s == show(d.current) + " / " + show(d.max.value)
    ensures !HasDifferentMax(d) ==> s == show(d.current)
  {
    if HasDifferentMax(d) then show(d.current) + " / " + show(d.max.value) else show(d.current)
  }

  /** When no mode's text contains '/', the rendering mentions a maximum exactly when the
      maximum is known and differs from the current mode. */
  lemma ShowsMaxIffDifferent<T>(d: LinkData<T>, show: T -> string)
    requires forall x :: '/' !in show(x)
    ensures Contains(LinkDataToString(d, show), " / ") <==> HasDifferentMax(d)
  {
    if HasDifferentMax(d) {
      ContainsPlaced(show(d.current), " / ", show(d.max.value));
    } else {
      NotContainsWithoutChar(show(d.current), " / ", 1);
    }
  }

  /** An unknown maximum and a maximum equal to the current mode render the same. */
  lemma EqualMaxRendersLikeNoMax<T>(current: T, err: string, show: T -> string)
    ensures LinkDataToString(LinkData(current, Ok(current)), show)
      == LinkDataToString(LinkData(current, Err(err)), show)
      == show(current)
  {
  }
}
