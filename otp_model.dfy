/** The one-time password records of the reset flow (models/OTP.js) and
    the two queries the reset handler runs on them. The collection is kept
    in insertion order, and `findOne` is taken to return the first match
    in that order: the database promises no order, so this is a choice of
    the model. */
module OtpModel {

  import opened Common

  /** `{ email, otp, expiresAt }` plus the document's `_id`; `expiresAt` is
      a time in milliseconds. */
  datatype OtpRecord = OtpRecord(id: string, email: string, otp: string, expiresAt: int)

  /** Ten minutes, the validity the request handler gives a code. */
  const OtpLifetimeMs: int := 10 * 60 * 1000

  predicate Matches(r: OtpRecord, email: string, otp: string) {
    r.email == email && r.otp == otp
  }

  /** `OTP.findOne({ email, otp })`: the position of the first record that
      matches both fields, if any. */
  function FindOtp(otps: seq<OtpRecord>, email: string, otp: string): (r: Option<nat>)
    ensures r.Some? ==> r.value < |otps| && Matches(otps[r.value], email, otp)
    ensures r.Some? ==> forall j :: 0 <= j < r.value ==> !Matches(otps[j], email, otp)
    ensures r.None? <==> forall j :: 0 <= j < |otps| ==> !Matches(otps[j], email, otp)
  {
    if otps == [] then None
    else if Matches(otps[0], email, otp) then Some(0)
    else match FindOtp(otps[1..], email, otp)
      case None => None
      case Some(k) => Some(k + 1)
  }

  /** `OTP.deleteOne({ _id })` for the record at position `i`. */
  function RemoveAt(otps: seq<OtpRecord>, i: nat): (r: seq<OtpRecord>)
    requires i < |otps|
    ensures |r| == |otps| - 1
    ensures forall j :: 0 <= j < i ==> r[j] == otps[j]
    ensures forall j :: i <= j < |r| ==> r[j] == otps[j + 1]
    ensures multiset(r) + multiset{otps[i]} == multiset(otps)
  {
    assert otps == otps[..i] + [otps[i]] + otps[i + 1..];
    otps[..i] + otps[i + 1..]
  }

  /** A code is rejected once its expiry time lies strictly in the past
      (`expiresAt < new Date()`): at `now == expiresAt` it is still good. */
  predicate Expired(r: OtpRecord, now: int) {
    r.expiresAt < now
  }

  /** Once the matched record is deleted, the same (email, code) pair finds
      nothing, unless another record carries the same pair. */
  lemma ConsumedCodeIsGone(otps: seq<OtpRecord>, email: string, otp: string, i: nat)
    requires FindOtp(otps, email, otp) == Some(i)
    requires forall j :: 0 <= j < |otps| && j != i ==> !Matches(otps[j], email, otp)
    ensures FindOtp(RemoveAt(otps, i), email, otp).None?
  {
    var r := RemoveAt(otps, i);
    forall j | 0 <= j < |r| ensures !Matches(r[j], email, otp) {
      if j < i { assert r[j] == otps[j]; } else { assert r[j] == otps[j + 1]; }
    }
  }
}
