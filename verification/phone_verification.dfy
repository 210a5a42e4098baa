/** `PhoneVerificationService`: one-time codes kept in a key-value store
    under `otp:<phone>`. Sending a code draws a six-digit number, stores it
    for 300 seconds (replacing any earlier code for the phone) and sends it
    by SMS; verifying a code compares it with the stored one and deletes it
    on a match, so a code works once. Time is in seconds here; the random
    draw is a parameter in [0, 1) and the SMS is not modelled. */
module PhoneVerification {
  import opened Common
  import opened JsText

  /** A stored code and the second at which the store drops it. */
  datatype Entry = Entry(code: string, expiresAt: int)

  type OtpStore = map<string, Entry>

  /** How long a code stays in the store (`EX 300`). */
  const OtpTtlSeconds: int := 300

  function OtpKey(phone: string): string
  {
    "otp:" + phone
  }

  /** Different phones never share a key. */
  lemma OtpKeyInjective(p: string, q: string)
    requires OtpKey(p) == OtpKey(q)
    ensures p == q
  {
    assert p == OtpKey(p)[4..] && q == OtpKey(q)[4..];
  }

  /** `redis.get`: the stored value unless its expiry has passed. */
  function Get(store: OtpStore, key: string, now: int): (r: Option<string>)
    ensures r.Some? <==> key in store && now < store[key].expiresAt
    ensures r.Some? ==> r.value == store[key].code
  {
    if key in store && now < store[key].expiresAt then Some(store[key].code) else None
  }

  /** `Math.floor(100000 + Math.random() * 900000)` for a draw in [0, 1). */
  function OtpNumber(draw: real): (n: nat)
    requires 0.0 <= draw < 1.0
    ensures 100000 <= n <= 999999
  {
    var x := 100000.0 + draw * 900000.0;
    assert 100000.0 <= x < 1000000.0;
    x.Floor
  }

  /** The code as sent: six decimal digits that read back as the number. */
  function OtpCode(draw: real): (r: string)
    requires 0.0 <= draw < 1.0
    ensures |r| == 6 && AllDigits(r) && DigitsValue(r) == OtpNumber(draw)
  {
    var n := OtpNumber(draw);
    SixDigits(n);
    DigitsValueOfNat(n);
    NatToString(n)
  }

  /** A number in [100000, 999999] is written with exactly six digits. */
  lemma SixDigits(n: nat)
    requires 100000 <= n <= 999999
    ensures |NatToString(n)| == 6
  {
    var a := n / 10;
    var b := a / 10;
    var c := b / 10;
    var d := c / 10;
    assert 10000 <= a <= 99999 && 1000 <= b <= 9999 && 100 <= c <= 999 && 10 <= d <= 99;
    OneMoreDigit(n);
    OneMoreDigit(a);
    OneMoreDigit(b);
    OneMoreDigit(c);
    OneMoreDigit(d);
    OneMoreDigit(d / 10);
  }

  /** A number of ten or more has one digit more than its tenth. */
  lemma OneMoreDigit(n: nat)
    ensures n >= 10 ==> |NatToString(n)| == |NatToString(n / 10)| + 1
    ensures n < 10 ==> |NatToString(n)| == 1
  {
  }

  /** `sendOtp`: the new store and the code sent to the phone. */
  function SendOtp(store: OtpStore, phone: string, draw: real, now: int): (r: (OtpStore, string))
    requires 0.0 <= draw < 1.0
    ensures |r.1| == 6 && AllDigits(r.1) && 100000 <= DigitsValue(r.1) <= 999999
    ensures Get(r.0, OtpKey(phone), now) == Some(r.1)
    ensures OtpKey(phone) in r.0 && r.0[OtpKey(phone)].expiresAt == now + OtpTtlSeconds
    ensures forall k :: k != OtpKey(phone) ==> (k in r.0 <==> k in store) && (k in store ==> r.0[k] == store[k])
  {
    var code := OtpCode(draw);
    (store[OtpKey(phone) := Entry(code, now + OtpTtlSeconds)], code)
  }

  /** `verifyOtp`: false with the store untouched when no live code is
      stored (or it is empty) or it differs; otherwise the code is deleted
      and the answer is true. */
  function VerifyOtp(store: OtpStore, phone: string, otp: Option<string>, now: int): (r: (OtpStore, bool))
    ensures r.1 <==> otp.Some? && otp.value != "" && Get(store, OtpKey(phone), now) == Some(otp.value)
    ensures !r.1 ==> r.0 == store
    ensures r.1 ==> OtpKey(phone) !in r.0 && forall k :: k != OtpKey(phone) ==> (k in r.0 <==> k in store) && (k in r.0 ==> r.0[k] == store[k])
  {
    var key := OtpKey(phone);
    match Get(store, key, now)
    case None => (store, false)
    case Some(stored) =>
      if stored == "" || otp != Some(stored) then (store, false)
      else (store - {key}, true)
  }

  /** A code verifies once: the same verification repeated fails. */
  lemma VerifyOneShot(store: OtpStore, phone: string, otp: Option<string>, now: int, later: int)
    requires VerifyOtp(store, phone, otp, now).1
    ensures !VerifyOtp(VerifyOtp(store, phone, otp, now).0, phone, otp, later).1
  {
  }

  /** The code just sent verifies within its 300 seconds and not after. */
  lemma SendThenVerify(store: OtpStore, phone: string, draw: real, now: int, later: int)
    requires 0.0 <= draw < 1.0
    ensures var (s1, code) := SendOtp(store, phone, draw, now);
      VerifyOtp(s1, phone, Some(code), later).1 <==> later < now + OtpTtlSeconds
  {
  }

  /** Sending again replaces the earlier code: only the last one verifies. */
  lemma ResendReplacesCode(store: OtpStore, phone: string, d1: real, d2: real, now: int, later: int)
    requires 0.0 <= d1 < 1.0 && 0.0 <= d2 < 1.0
    ensures var (s1, c1) := SendOtp(store, phone, d1, now);
      var (s2, c2) := SendOtp(s1, phone, d2, later);
      VerifyOtp(s2, phone, Some(c1), later).1 <==> c1 == c2
  {
  }

  /** Verifying for one phone leaves every other phone's code alone. */
  lemma VerifyLeavesOtherPhones(store: OtpStore, phone: string, other: string, otp: Option<string>, now: int, t: int)
    requires other != phone
    ensures Get(VerifyOtp(store, phone, otp, now).0, OtpKey(other), t) == Get(store, OtpKey(other), t)
  {
    if OtpKey(other) == OtpKey(phone) {
      OtpKeyInjective(other, phone);
    }
  }
}
