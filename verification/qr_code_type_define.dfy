/**
 * The tag enum QRCodeTypeDefine: every constant carries a string value, `getValue` reads it and
 * `getValueByTag` searches the constants, in declaration order, for the one carrying a given tag.
 */
module QRCodeTypeDefine {
  import Wrappers

  /** The constants `None("none")` and `isMIC("1")`. */
  datatype QRCodeType = None | IsMic

  /** `values()`: every constant, in declaration order. */
  const Values: seq<QRCodeType> := [None, IsMic]

  /** `getValue`: the string a constant was declared with. */
  function GetValue(t: QRCodeType): (v: string)
    ensures v != ""
  {
    match t
    case None => "none"
    case IsMic => "1"
  }

  /**
   * The loop of `getValueByTag`: the position of the first candidate whose value equals `tag`,
   * or `|candidates|` when none does.
   */
  function FirstWithValue(candidates: seq<QRCodeType>, tag: string): (i: nat)
    ensures i <= |candidates|
    ensures forall j :: 0 <= j < i ==> GetValue(candidates[j]) != tag
    ensures i < |candidates| ==> GetValue(candidates[i]) == tag
  {
    if candidates == [] then 0
    else if GetValue(candidates[0]) == tag then 0
    else 1 + FirstWithValue(candidates[1..], tag)
  }

  /** `getValueByTag`: `None` for an empty tag, else the first constant carrying it, else `None`. */
  function GetValueByTag(tag: Wrappers.Option<string>): (t: QRCodeType)
    ensures Wrappers.IsEmpty(tag) ==> t == None
    ensures t == IsMic <==> tag == Wrappers.Some(GetValue(IsMic))
  {
    if Wrappers.IsEmpty(tag) then None
    else
      var i := FirstWithValue(Values, tag.value);
      if i < |Values| then Values[i] else None
  }

  /** No two constants share a value, so a value names its constant. */
  lemma ValuesDistinct(t: QRCodeType, u: QRCodeType)
    ensures GetValue(t) == GetValue(u) ==> t == u
  {
  }

  /** A non-empty tag that is the value of some constant is found: the lookup returns a constant carrying it. */
  lemma {:induction false} GetValueByTagFinds(tag: string, k: nat)
    requires tag != "" && k < |Values| && GetValue(Values[k]) == tag
    ensures GetValue(GetValueByTag(Wrappers.Some(tag))) == tag
  {
    var i := FirstWithValue(Values, tag);
    assert i <= k;
  }

  /** `getValueByTag("1")` is `isMIC`. */
  lemma TagOneIsMic()
    ensures GetValueByTag(Wrappers.Some("1")) == IsMic
  {
  }

  /** `getValueByTag("none")` is `None`. */
  lemma TagNoneIsNone()
    ensures GetValueByTag(Wrappers.Some("none")) == None
  {
  }

  /** A non-empty tag that is no constant's value falls back to `None`. */
  lemma UnknownTagIsNone(tag: string)
    requires tag != ""
    requires forall t :: GetValue(t) != tag
    ensures GetValueByTag(Wrappers.Some(tag)) == None
  {
  }

  /** Round trip: looking up a constant's own value gives the constant back. */
  lemma RoundTrip(t: QRCodeType)
    ensures GetValueByTag(Wrappers.Some(GetValue(t))) == t
  {
    var k := if t == None then 0 else 1;
    GetValueByTagFinds(GetValue(t), k);
    ValuesDistinct(t, GetValueByTag(Wrappers.Some(GetValue(t))));
  }

  /** The other direction: a tag comes back from `getValue` exactly when it is a declared value. */
  lemma InverseRoundTrip(tag: string)
    ensures GetValue(GetValueByTag(Wrappers.Some(tag))) == tag <==> exists t :: GetValue(t) == tag
  {
    if exists t :: GetValue(t) == tag {
      var t :| GetValue(t) == tag;
      RoundTrip(t);
    }
  }
}
