/**
 * The crisis-resources page: the call button of a resource and the number it
 * dials, `phone_number.replace(/\D/g, "")` guarded by a non-empty check.
 */
module Emergency {
  import opened Wrappers
  import opened Sequences

  /** The regular-expression class `\d`: the ASCII digits only. */
  predicate IsDigit(c: char)
  {
    '0' <= c <= '9'
  }

  /** The number with every non-digit removed. */
  function NormalizePhone(phone: string): (digits: string)
    ensures forall i :: 0 <= i < |digits| ==> IsDigit(digits[i])
    ensures IsSubsequence(digits, phone)
    ensures forall c :: multiset(digits)[c] == if IsDigit(c) then multiset(phone)[c] else 0
    ensures |digits| <= |phone|
  {
    Filter(phone, IsDigit)
  }

  /**
   * The normalised number is exactly the digits of the input in order: any
   * in-order selection of digits as long as it is it.
   */
  lemma NormalizeExactly(phone: string, digits: string)
    requires IsSubsequence(digits, phone)
    requires forall i :: 0 <= i < |digits| ==> IsDigit(digits[i])
    requires |digits| == |NormalizePhone(phone)|
    ensures digits == NormalizePhone(phone)
  {
    FilterUnique(digits, phone, IsDigit);
  }

  /** Normalising a normalised number changes nothing. */
  lemma NormalizeIdempotent(phone: string)
    ensures NormalizePhone(NormalizePhone(phone)) == NormalizePhone(phone)
  {
    FilterIdempotent(phone, IsDigit);
  }

  /** Separators between the parts of a number do not matter: normalisation works part by part. */
  lemma NormalizeConcat(a: string, b: string)
    ensures NormalizePhone(a + b) == NormalizePhone(a) + NormalizePhone(b)
  {
    FilterConcat(a, b, IsDigit);
  }

  /** The normalised number is empty exactly when the input holds no digit. */
  lemma NormalizeEmpty(phone: string)
    ensures NormalizePhone(phone) == [] <==> forall i :: 0 <= i < |phone| ==> !IsDigit(phone[i])
  {
    var digits := NormalizePhone(phone);
    if digits == [] {
      forall i | 0 <= i < |phone|
        ensures !IsDigit(phone[i])
      {
        assert phone[i] in multiset(phone);
        assert multiset(digits)[phone[i]] == 0;
      }
    } else {
      assert digits[0] in multiset(digits);
      assert digits[0] in phone;
    }
  }

  /** The URI the click handler opens, if any. */
  function DialUri(phone: string): (uri: Option<string>)
    ensures uri.Some? <==> exists i :: 0 <= i < |phone| && IsDigit(phone[i])
    ensures uri.Some? ==> uri.value == "tel:" + NormalizePhone(phone)
    ensures uri.Some? ==> uri.value[..4] == "tel:" && NormalizePhone(uri.value[4..]) == uri.value[4..]
  {
    var digits := NormalizePhone(phone);
    NormalizeEmpty(phone);
    NormalizeIdempotent(phone);
    if digits != [] then Some("tel:" + digits) else None
  }

  /** A row of the `crisis_resources` table, restricted to what the call button uses. */
  datatype CrisisResource = CrisisResource(name: string, country: string, phoneNumber: Option<string>)

  /** The call button: its caption and what a click opens. */
  datatype CallButton = CallButton(caption: string, dial: Option<string>)

  /** `resource.phone_number && <Button …>`: an absent or empty number draws no button. */
  function CallButtonFor(resource: CrisisResource): (button: Option<CallButton>)
    ensures button.Some? <==> resource.phoneNumber.Some? && resource.phoneNumber.value != ""
    ensures button.Some? ==> button.value.caption == resource.phoneNumber.value
    ensures button.Some? ==> (button.value.dial.Some? <==> NormalizePhone(button.value.caption) != [])
    ensures button.Some? && button.value.dial.Some? ==>
      button.value.dial.value == "tel:" + NormalizePhone(button.value.caption)
  {
    match resource.phoneNumber
    case Some(phone) =>
      if phone != "" then Some(CallButton(phone, DialUri(phone))) else None
    case None => None
  }
}
