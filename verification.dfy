/**
 * The `verify_code` endpoint: a phone's pending verification code is
 * checked, counting every attempt before anything else is looked at.
 */
module Verification {
  import opened Text
  import opened Models

  /** The answers `verify_code` gives; `MultipleCodes` is the exception `get` raises on two pending rows. */
  datatype VerifyOutcome =
    | MissingInput | CodeNotFound | MultipleCodes
    | TooManyAttempts | CodeExpired | WrongCode(remaining: int) | Verified

  /** Whether the endpoint went as far as comparing the code. */
  predicate Compared(o: VerifyOutcome)
  {
    o.WrongCode? || o.Verified?
  }

  /**
   * The checks on the one pending row: the attempt is counted first, then
   * more than five attempts, expiry and a wrong code are refused in that
   * order; only a match marks the row verified.
   */
  function Check(v: VerificationCode, code: string, now: int): (r: (VerifyOutcome, VerificationCode))
    ensures r.1 == v.(attempts := v.attempts + 1, isVerified := r.0.Verified? || v.isVerified)
    ensures r.0.Verified? ==> v.code == code && !IsExpired(v, now) && v.attempts + 1 <= 5
    ensures r.0.WrongCode? ==> r.0.remaining == 5 - r.1.attempts && r.0.remaining >= 0
    ensures r.0 in {TooManyAttempts, CodeExpired, Verified} || r.0.WrongCode?
  {
    var w := v.(attempts := v.attempts + 1);
    if w.attempts > 5 then (TooManyAttempts, w)
    else if IsExpired(w, now) then (CodeExpired, w)
    else if w.code != code then (WrongCode(5 - w.attempts), w)
    else (Verified, w.(isVerified := true))
  }

  /**
   * The endpoint accepts exactly the codes `VerificationCode.is_valid`
   * accepts, judged on the row as it was before this attempt was counted.
   */
  lemma CheckAgreesWithIsValid(v: VerificationCode, code: string, now: int)
    ensures Check(v, code, now).0.Verified? <==> IsValid(v, code, now)
  {
  }

  /** Replaying a sequence of guesses on one row until it is verified. */
  function Replay(v: VerificationCode, guesses: seq<string>, now: int): (r: seq<VerifyOutcome>)
    ensures |r| <= |guesses|
    decreases |guesses|
  {
    if guesses == [] || v.isVerified then []
    else
      var (o, w) := Check(v, guesses[0], now);
      [o] + Replay(w, guesses[1..], now)
  }

  /** How many outcomes of a replay compared the code. */
  function ComparedCount(os: seq<VerifyOutcome>): nat
  {
    if os == [] then 0 else (if Compared(os[0]) then 1 else 0) + ComparedCount(os[1..])
  }

  /**
   * However many guesses are sent, at most five minus the attempts already
   * made ever reach the comparison with the stored code.
   */
  lemma {:induction false} GuessesAreBounded(v: VerificationCode, guesses: seq<string>, now: int)
    requires v.attempts >= 0
    ensures ComparedCount(Replay(v, guesses, now)) <= if v.attempts <= 5 then 5 - v.attempts else 0
    decreases |guesses|
  {
    if guesses != [] && !v.isVerified {
      var (o, w) := Check(v, guesses[0], now);
      GuessesAreBounded(w, guesses[1..], now);
      assert Replay(v, guesses, now) == [o] + Replay(w, guesses[1..], now);
      assert ([o] + Replay(w, guesses[1..], now))[1..] == Replay(w, guesses[1..], now);
    }
  }

  /** The verification_codes table. */
  class CodeTable {
    var codes: seq<VerificationCode>

    constructor(codes: seq<VerificationCode>)
      ensures this.codes == codes
    {
      this.codes := codes;
    }

    /** The rows `get(phone=phone, is_verified=False)` selects. */
    function Pending(phone: string): (s: set<nat>)
      reads this
      ensures forall i :: i in s ==> i < |codes|
    {
      set i: nat | i < |codes| && codes[i].phone == phone && !codes[i].isVerified
    }

    /**
     * `verify_code`: a missing phone or code, or not exactly one pending row
     * for the phone, changes nothing; otherwise that row goes through `Check`
     * and every other row stays as it was.
     */
    method VerifyCode(phone: string, code: string, now: int) returns (o: VerifyOutcome)
      modifies this
      ensures |codes| == old(|codes|)
      ensures phone == "" || code == "" ==> o == MissingInput && codes == old(codes)
      ensures phone != "" && code != "" && |old(Pending(phone))| == 0 ==> o == CodeNotFound && codes == old(codes)
      ensures phone != "" && code != "" && |old(Pending(phone))| > 1 ==> o == MultipleCodes && codes == old(codes)
      ensures phone != "" && code != "" && |old(Pending(phone))| == 1 ==>
        exists i :: i in old(Pending(phone)) && i < |codes| && (o, codes[i]) == Check(old(codes[i]), code, now)
                    && codes == old(codes)[i := codes[i]]
    {
      if phone == "" || code == "" {
        return MissingInput;
      }
      var pending := Pending(phone);
      if |pending| == 0 {
        return CodeNotFound;
      }
      if |pending| > 1 {
        return MultipleCodes;
      }
      var i :| i in pending;
      var r := Check(codes[i], code, now);
      codes := codes[i := r.1];
      o := r.0;
    }
  }
}
