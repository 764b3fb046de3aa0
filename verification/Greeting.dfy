/** The 64-byte greeting (monocoque-zmtp/src/greeting.rs). */
module Greeting {
  import opened ByteStrings
  import opened Framing

  const GREETING_SIZE := 64

  predicate MechanismChar(b: byte) { 0x41 <= b <= 0x5A || 0x30 <= b <= 0x39 }

  predicate AllMechanismChars(s: Bytes) { forall i :: 0 <= i < |s| ==> MechanismChar(s[i]) }
  predicate AllZero(s: Bytes) { forall i :: 0 <= i < |s| ==> s[i] == 0 }

  /** The index of the first zero byte, or the length when there is none. */
  function FirstZero(s: Bytes): (n: nat)
    ensures n <= |s| && (n < |s| ==> s[n] == 0) && forall i :: 0 <= i < n ==> s[i] != 0
  {
    if s == [] || s[0] == 0 then 0 else 1 + FirstZero(s[1..])
  }

  datatype Parsed = Ok(mechanism: Bytes, asServer: bool) | Err(error: ZmtpError)

  function ParseGreeting(src: Bytes): Parsed {
    if |src| < GREETING_SIZE then Err(Incomplete)
    else if |src| != GREETING_SIZE then Err(Protocol)
    else if src[0] != 0xFF || src[9] != 0x7F then Err(Protocol)
    else if src[10] < 3 then Err(Protocol)
    else
      var mechanism := src[12..32];
      var end := FirstZero(mechanism);
      if end == 0 || !AllMechanismChars(mechanism[..end]) || !AllZero(mechanism[end..]) then Err(Protocol)
      else if src[32] > 1 then Err(Protocol)
      else Ok(mechanism, src[32] != 0)
  }

  /** The field starts with a name of `n` characters and holds zeros from there on. */
  predicate HoldsName(field: Bytes, n: nat) {
    1 <= n <= |field| && AllMechanismChars(field[..n]) && AllZero(field[n..])
  }

  /** A greeting of major version 3 or later: signature, a non-empty zero-padded mechanism name, a boolean. */
  ghost predicate WellFormed(src: Bytes) {
    && |src| == 64 && src[0] == 0xFF && src[9] == 0x7F && src[10] >= 3 && src[32] <= 1
    && exists n: nat :: HoldsName(src[12..32], n)
  }

  lemma NameEndsAtZero(field: Bytes, n: nat)
    requires HoldsName(field, n)
    ensures FirstZero(field) == n
  {
    assert forall i :: 0 <= i < n ==> field[i] == field[..n][i];
    assert n < |field| ==> field[n] == field[n..][0];
  }

  /** The checks accept exactly the well-formed greetings, and only a short one is merely incomplete. */
  lemma GreetingAccepted(src: Bytes)
    ensures ParseGreeting(src).Ok? <==> WellFormed(src)
    ensures ParseGreeting(src) == Err(Incomplete) <==> |src| < 64
    ensures WellFormed(src) ==> ParseGreeting(src) == Ok(src[12..32], src[32] == 1)
  {
    if |src| == 64 {
      var mechanism := src[12..32];
      var end := FirstZero(mechanism);
      assert end > 0 && AllMechanismChars(mechanism[..end]) && AllZero(mechanism[end..]) ==> HoldsName(mechanism, end);
      if n: nat :| HoldsName(mechanism, n) {
        NameEndsAtZero(mechanism, n);
      }
    }
  }
}
