/** The recipients of a manual batch (`resolveManualRecipientPhones`). */
module ManualRecipients {
  import opened Wrappers
  import opened JsText
  import opened FirstOccurrence

  const MANUAL_MESSAGE_RECIPIENT_LIMIT := 100

  datatype Phones = Resolved(phones: seq<string>) | NoPhone | TooMany(count: nat)

  /** Two phones are the same recipient when their digits are; a phone without digits is skipped. */
  function PhoneKey(raw: string): Option<string> {
    var phone := Trim(raw);
    var key := Digits(phone);
    if phone == "" || key == "" then None else Some(key)
  }

  function PhoneKeys(raws: seq<string>): (keys: seq<Option<string>>)
    ensures |keys| == |raws| && forall k | 0 <= k < |raws| :: keys[k] == PhoneKey(raws[k])
  {
    seq(|raws|, k requires 0 <= k < |raws| => PhoneKey(raws[k]))
  }

  function TrimmedPhones(raws: seq<string>): (phones: seq<string>)
    ensures |phones| == |raws| && forall k | 0 <= k < |raws| :: phones[k] == Trim(raws[k])
  {
    seq(|raws|, k requires 0 <= k < |raws| => Trim(raws[k]))
  }

  /** The list if it is there and not empty, or else the single phone. */
  function RawPhones(recipientPhone: Option<string>, recipientPhones: Option<seq<string>>): seq<string> {
    if recipientPhones.Some? && recipientPhones.value != [] then recipientPhones.value
    else if recipientPhone.Some? && recipientPhone.value != "" then [recipientPhone.value]
    else []
  }

  /** What a list of phones comes to; the limit counts what is kept. */
  function PhonesOf(raws: seq<string>): Phones {
    var kept := Firsts(PhoneKeys(raws), |raws|);
    if kept == [] then NoPhone
    else if |kept| > MANUAL_MESSAGE_RECIPIENT_LIMIT then TooMany(|kept|)
    else Resolved(Select(TrimmedPhones(raws), kept))
  }

  /** A list that is there and not empty comes to its different recipients, and otherwise the single
      phone, if it has digits, to itself. */
  method ResolveManualRecipientPhones(recipientPhone: Option<string>,
                                      recipientPhones: Option<seq<string>>) returns (r: Phones)
    ensures recipientPhones.Some? && |recipientPhones.value| > 0 ==> r == PhonesOf(recipientPhones.value)
    ensures !(recipientPhones.Some? && |recipientPhones.value| > 0) ==>
              r == if recipientPhone.Some? && Digits(recipientPhone.value) != "" then
                     Resolved([Trim(recipientPhone.value)])
                   else NoPhone
  {
    hide Trim, Digits, IsFirst, IsRepeat, Seen, Firsts;
    var raws := RawPhones(recipientPhone, recipientPhones);
    ghost var keys, trimmed := PhoneKeys(raws), TrimmedPhones(raws);
    var seen: set<string> := {};
    var phones: seq<string> := [];
    NothingSeen(keys);
    var i := 0;
    while i < |raws|
      invariant i <= |raws|
      invariant Seen(keys, i, seen)
      invariant phones == Select(trimmed, Firsts(keys, i))
    {
      var phone := Trim(raws[i]);
      var key := Digits(phone);
      SeenStep(keys, i, seen);
      FirstsStep(keys, i);
      SelectStep(trimmed, Firsts(keys, i), i);
      if phone == "" || key == "" || key in seen {
        assert key in seen ==> seen + {key} == seen;
      } else {
        seen := seen + {key};
        phones := phones + [phone];
      }
      i := i + 1;
    }
    if phones == [] {
      r := NoPhone;
    } else if |phones| > MANUAL_MESSAGE_RECIPIENT_LIMIT {
      r := TooMany(|phones|);
    } else {
      r := Resolved(phones);
    }
    SinglePhone(recipientPhone);
  }

  lemma {:induction false} DigitsConcat(a: string, b: string)
    ensures Digits(a + b) == Digits(a) + Digits(b)
  {
    if a == "" {
      assert a + b == b;
    } else {
      assert (a + b)[1..] == a[1..] + b;
      DigitsConcat(a[1..], b);
    }
  }

  lemma {:induction false} NoDigitsInSpace(s: string)
    requires AllSpace(s)
    ensures Digits(s) == ""
  {
    if s != "" { NoDigitsInSpace(s[1..]); }
  }

  /** Trimming keeps the digits, so a phone has a key exactly when it has digits. */
  lemma KeyIsDigits(raw: string)
    ensures Digits(Trim(raw)) == Digits(raw)
    ensures PhoneKey(raw) == if Digits(raw) == "" then None else Some(Digits(raw))
  {
    hide IsSpace, Digits, Trim;
    var a, b := TrimMargins(raw);
    NoDigitsInSpace(a);
    NoDigitsInSpace(b);
    DigitsConcat(a + Trim(raw), b);
    DigitsConcat(a, Trim(raw));
    NoDigitsInSpace("");
  }

  lemma SinglePhone(recipientPhone: Option<string>)
    ensures recipientPhone.Some? ==>
              PhonesOf([recipientPhone.value])
              == if Digits(recipientPhone.value) == "" then NoPhone else Resolved([Trim(recipientPhone.value)])
    ensures PhonesOf([]) == NoPhone && Digits("") == ""
  {
    hide Trim, Digits;
    KeyIsDigits("");
    if recipientPhone.Some? {
      var raw := recipientPhone.value;
      KeyIsDigits(raw);
      var keys := PhoneKeys([raw]);
      assert Firsts(keys, 0) == [];
      assert Firsts(keys, 1) == if IsFirst(keys, 0) then [0] else [];
      assert Select(TrimmedPhones([raw]), [0]) == [Trim(raw)];
    }
  }

  /** The phones of a batch: they differ in their digits, and they are exactly the trimmed entries
      whose digits are not those of an earlier entry. */
  lemma ResolvedPhonesAre(raws: seq<string>)
    ensures var phones := Select(TrimmedPhones(raws), Firsts(PhoneKeys(raws), |raws|));
            && (forall i, j | 0 <= i < j < |phones| :: Digits(phones[i]) != Digits(phones[j]))
            && forall phone ::
                 phone in phones <==> exists k | 0 <= k < |raws| :: NewPhone(raws, k) && phone == Trim(raws[k])
  {
    hide Trim, Digits, Firsts;
    var keys := PhoneKeys(raws);
    var kept := Firsts(keys, |raws|);
    var phones := Select(TrimmedPhones(raws), kept);
    forall k | 0 <= k < |raws| ensures keys[k] == if Digits(raws[k]) == "" then None else Some(Digits(raws[k])) {
      KeyIsDigits(raws[k]);
    }
    FirstsAre(keys, |raws|);
    forall k | 0 <= k < |raws| ensures IsFirst(keys, k) <==> NewPhone(raws, k) {}
    forall phone | phone in phones ensures exists k | 0 <= k < |raws| :: NewPhone(raws, k) && phone == Trim(raws[k]) {
      var i :| 0 <= i < |phones| && phones[i] == phone;
      assert NewPhone(raws, kept[i]);
    }
    forall k | 0 <= k < |raws| && NewPhone(raws, k) ensures Trim(raws[k]) in phones {
      var i :| 0 <= i < |kept| && kept[i] == k;
      assert phones[i] == Trim(raws[k]);
    }
    forall i, j | 0 <= i < j < |phones| ensures Digits(phones[i]) != Digits(phones[j]) {
      FirstsDiffer(keys, |raws|, i, j);
      KeyIsDigits(raws[kept[i]]);
      KeyIsDigits(raws[kept[j]]);
    }
  }

  /** The entry has digits, and no earlier entry has the same. */
  predicate NewPhone(raws: seq<string>, k: nat)
    requires k < |raws|
  {
    Digits(raws[k]) != "" && forall m | 0 <= m < k :: Digits(raws[m]) != Digits(raws[k])
  }
}
