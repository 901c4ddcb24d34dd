/** The proof-of-work puzzle: `valid_proof` and the decimal text it hashes.
    The digest (SHA-256 rendered as hex) is an arbitrary function supplied by the caller. */
module ProofOfWork {

  predicate IsDigit(c: char)
  {
    '0' <= c <= '9'
  }

  function DigitChar(d: nat): (c: char)
    requires d < 10
    ensures IsDigit(c)
  {
    ('0' as int + d) as char
  }

  function DigitValue(c: char): nat
  {
    if IsDigit(c) then c as int - '0' as int else 0
  }

  /** Decimal digits of a natural number, most significant first. */
  function Digits(n: nat): (s: string)
    ensures |s| >= 1
    ensures forall i :: 0 <= i < |s| ==> IsDigit(s[i])
    ensures s[0] == '0' ==> n == 0
  {
    if n < 10 then [DigitChar(n)] else Digits(n / 10) + [DigitChar(n % 10)]
  }

  /** Python's `str(n)` of an int, as used by an f-string: a minus sign, then the digits. */
  function DecimalText(n: int): (s: string)
  {
    if n < 0 then "-" + Digits(-n) else Digits(n)
  }

  /** Reading back a run of decimal digits. */
  function DigitsValue(s: string): nat
  {
    if s == [] then 0 else DigitsValue(s[..|s| - 1]) * 10 + DigitValue(s[|s| - 1])
  }

  /** Reading back an optionally signed decimal text. */
  function ParseDecimal(s: string): int
  {
    if |s| > 0 && s[0] == '-' then 0 - DigitsValue(s[1..]) else DigitsValue(s)
  }

  lemma {:induction false} DigitsRoundTrip(n: nat)
    ensures DigitsValue(Digits(n)) == n
  {
    if n >= 10 {
      var s := Digits(n);
      assert s[..|s| - 1] == Digits(n / 10);
      assert s[|s| - 1] == DigitChar(n % 10);
      DigitsRoundTrip(n / 10);
    }
  }

  /** The text `valid_proof` hashes determines the integer it was rendered from. */
  lemma DecimalRoundTrip(n: int)
    ensures ParseDecimal(DecimalText(n)) == n
  {
    if n < 0 {
      var d := Digits(-n);
      assert DecimalText(n) == "-" + d;
      assert ("-" + d)[0] == '-' && ("-" + d)[1..] == d;
      DigitsRoundTrip(-n);
    } else {
      var d := Digits(n);
      assert DecimalText(n) == d && IsDigit(d[0]);
      DigitsRoundTrip(n);
    }
  }

  /** Python's slice `s[:n]`: the first n characters, or all of s when it is shorter. */
  function Take(s: string, n: nat): (r: string)
    ensures |r| == if |s| < n then |s| else n
    ensures forall i :: 0 <= i < |r| ==> r[i] == s[i]
  {
    if |s| < n then s else s[..n]
  }

  /** The guess `f'{last_proof}{proof}'`: both numbers' text, no separator. */
  function Guess(lastProof: int, proof: int): string
  {
    DecimalText(lastProof) + DecimalText(proof)
  }

  /** `valid_proof`: the hex digest of the guess starts with "0000". */
  predicate ValidProof(digest: string -> string, lastProof: int, proof: int)
  {
    Take(digest(Guess(lastProof, proof)), 4) == "0000"
  }

  /** A valid proof's digest is at least four characters long and its first four are
      '0'; a digest shorter than four characters never validates. */
  lemma ValidProofMeaning(digest: string -> string, lastProof: int, proof: int)
    ensures ValidProof(digest, lastProof, proof) <==>
      var h := digest(DecimalText(lastProof) + DecimalText(proof));
      |h| >= 4 && h[0] == '0' && h[1] == '0' && h[2] == '0' && h[3] == '0'
  {
    var h := digest(Guess(lastProof, proof));
    if |h| >= 4 && h[0] == '0' && h[1] == '0' && h[2] == '0' && h[3] == '0' {
      assert Take(h, 4) == "0000";
    }
  }

  /** Because the two numbers are joined without a separator, different pairs can
      share one guess: (1, 23) and (12, 3) both hash "123". */
  lemma GuessIsAmbiguous(digest: string -> string)
    ensures Guess(1, 23) == Guess(12, 3) == "123"
    ensures ValidProof(digest, 1, 23) == ValidProof(digest, 12, 3)
  {
    assert DecimalText(1) == "1" && DecimalText(3) == "3";
    assert DecimalText(23) == Digits(2) + [DigitChar(3)] == "23";
    assert DecimalText(12) == Digits(1) + [DigitChar(2)] == "12";
  }

  /** `p` is what a linear search from 0 stops at: valid, and nothing smaller is. */
  ghost predicate IsFirstProof(digest: string -> string, lastProof: int, p: nat)
  {
    ValidProof(digest, lastProof, p) &&
    forall q: nat :: q < p ==> !ValidProof(digest, lastProof, q)
  }

  /** The first valid proof is unique, so mining is deterministic given the digest. */
  lemma FirstProofUnique(digest: string -> string, lastProof: int, p: nat, p': nat)
    requires IsFirstProof(digest, lastProof, p) && IsFirstProof(digest, lastProof, p')
    ensures p == p'
  {
  }
}
