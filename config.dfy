/** The settings validator that turns the CORS_ORIGINS setting into a list of origins. */
module Config {
  import opened Base
  import opened Text

  /** The shapes a raw setting value can take. */
  datatype SettingValue = Str(s: string) | StrList(items: seq<string>) | OtherValue

  function StripAll(parts: seq<string>): (r: seq<string>)
    ensures |r| == |parts|
    ensures forall i :: 0 <= i < |r| ==> r[i] == Strip(parts[i])
  {
    seq(|parts|, i requires 0 <= i < |parts| => Strip(parts[i]))
  }

  predicate StartsWithBracket(s: string)
  {
    |s| > 0 && s[0] == '['
  }

  /**
   * A string that does not start with "[" becomes its comma-separated
   * pieces, each stripped: one more piece than commas, none with
   * surrounding whitespace. A "[..." string and a list pass through
   * unchanged; any other value is refused.
   */
  function AssembleCorsOrigins(v: SettingValue): (r: Result<SettingValue>)
    ensures r.Failure? <==> v.OtherValue?
    ensures r.Failure? ==> r.error == InvalidValue
    ensures v.StrList? || (v.Str? && StartsWithBracket(v.s)) ==> r == Success(v)
    ensures v.Str? && !StartsWithBracket(v.s) ==>
      && r.Success? && r.value.StrList?
      && |r.value.items| == Count(v.s, ',') + 1
      && (forall i :: 0 <= i < |r.value.items| ==> r.value.items[i] == Strip(Split(v.s, ',')[i]))
      && (forall i :: 0 <= i < |r.value.items| ==> ',' !in r.value.items[i])
      && (forall i :: 0 <= i < |r.value.items| ==> var o := r.value.items[i];
            o == [] || (!IsSpace(o[0]) && !IsSpace(o[|o| - 1])))
  {
    match v
    case Str(s) =>
      if !StartsWithBracket(s) then Success(StrList(StripAll(Split(s, ','))))
      else Success(v)
    case StrList(_) => Success(v)
    case OtherValue => Failure(InvalidValue)
  }

  /** Listing trimmed, comma-free origins with commas (and no leading "[") parses back to the same origins. */
  lemma {:induction false} CorsRoundTrip(origins: seq<string>)
    requires |origins| > 0
    requires forall i :: 0 <= i < |origins| ==> ',' !in origins[i]
    requires forall i :: 0 <= i < |origins| ==> origins[i] == [] || (!IsSpace(origins[i][0]) && !IsSpace(origins[i][|origins[i]| - 1]))
    requires !StartsWithBracket(origins[0])
    ensures AssembleCorsOrigins(Str(Join(origins, ','))) == Success(StrList(origins))
  {
    var s := Join(origins, ',');
    SplitJoin(origins, ',');
    assert !StartsWithBracket(s) by {
      if |origins| > 1 {
        assert s == origins[0] + [','] + Join(origins[1..], ',');
      }
    }
    forall i | 0 <= i < |origins|
      ensures Strip(origins[i]) == origins[i]
    {
      StripKeepsTrimmed(origins[i]);
    }
    assert StripAll(Split(s, ',')) == origins;
  }
}
