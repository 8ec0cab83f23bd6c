/**
 * The letter rotation `SubstitutionCipher.shift`: every ASCII letter moves
 * `shift` places along its own alphabet, every other character is copied.
 */
module Shifter {

  import opened Wrappers

  /**
   * The two alphabets the cipher rotates within, built as 26 consecutive
   * code points; `AlphabetSpelling` shows they are the literal strings
   * "ABC...Z" and "abc...z".
   */
  const UPPERCASE: string := LettersFrom('A')
  const LOWERCASE: string := LettersFrom('a')

  /** The 26 characters from `first` on: an alphabet holds exactly the letters of its case. */
  function LettersFrom(first: char): (s: string)
    requires first == 'A' || first == 'a'
    ensures |s| == 26
    ensures forall c :: c in s <==> first <= c && c as int < first as int + 26
  {
    var s := seq(26, i requires 0 <= i < 26 => (first as int + i) as char);
    RunMembers(s, first as int);
    s
  }

  /** A run of consecutive code points starting at `lo` holds exactly the characters in its range. */
  lemma RunMembers(s: string, lo: int)
    requires forall i :: 0 <= i < |s| ==> s[i] as int == lo + i
    ensures forall c :: c in s <==> lo <= c as int < lo + |s|
  {
    forall c | lo <= c as int < lo + |s| ensures c in s {
      assert s[c as int - lo] == c;
    }
  }

  predicate IsUpper(c: char) { 'A' <= c <= 'Z' }
  predicate IsLower(c: char) { 'a' <= c <= 'z' }
  predicate IsLetter(c: char) { IsUpper(c) || IsLower(c) }

  /** Zero-based place of a letter in its own alphabet. */
  function Pos(c: char): (p: int)
    requires IsLetter(c)
    ensures 0 <= p < 26
  {
    if IsUpper(c) then c as int - 'A' as int else c as int - 'a' as int
  }

  /** Java's `String.indexOf(char)`: the first index of `c` in `s`, or -1. */
  function IndexOf(s: string, c: char): (r: int)
    ensures -1 <= r < |s|
    ensures r == -1 <==> c !in s
    ensures 0 <= r ==> s[r] == c && c !in s[..r]
  {
    if s == [] then -1
    else if s[0] == c then 0
    else
      var r := IndexOf(s[1..], c);
      assert r >= 0 ==> s[..r + 1] == [s[0]] + s[1..][..r];
      if r == -1 then -1 else r + 1
  }

  /** In a run of consecutive code points starting at `lo`, a character's index is its distance from `lo`. */
  lemma IndexOfRun(s: string, lo: int, c: char)
    requires forall i :: 0 <= i < |s| ==> s[i] as int == lo + i
    ensures IndexOf(s, c) == if lo <= c as int < lo + |s| then c as int - lo else -1
  {
    if lo <= c as int < lo + |s| {
      var j := c as int - lo;
      assert s[j] == c;
    }
  }

  /** The alphabet constants spelled out. */
  lemma AlphabetSpelling()
    ensures UPPERCASE == "ABCDEFGHIJKLMNOPQRSTUVWXYZ"
    ensures LOWERCASE == "abcdefghijklmnopqrstuvwxyz"
  {
    assert UPPERCASE == seq(26, i requires 0 <= i < 26 => ('A' as int + i) as char);
    assert LOWERCASE == seq(26, i requires 0 <= i < 26 => ('a' as int + i) as char);
  }

  /** `UPPERCASE.indexOf(c)` / `LOWERCASE.indexOf(c)` find exactly the letters of that case, at `Pos(c)`. */
  lemma AlphabetIndexOf(c: char)
    ensures IndexOf(UPPERCASE, c) == if IsUpper(c) then Pos(c) else -1
    ensures IndexOf(LOWERCASE, c) == if IsLower(c) then Pos(c) else -1
  {
    IndexOfRun(UPPERCASE, 'A' as int, c);
    IndexOfRun(LOWERCASE, 'a' as int, c);
  }

  /**
   * The single wrap correction applied to `startIndex + shift`: subtract 26
   * once above 25, add 26 once below 0. It lands on a valid alphabet index
   * exactly when its argument lies in [-26, 51], and there it is the residue mod 26.
   */
  function Wrap(shiftIndex: int): (r: int)
    ensures 0 <= r < 26 <==> -26 <= shiftIndex <= 51
    ensures -26 <= shiftIndex <= 51 ==> r == shiftIndex % 26
  {
    if shiftIndex > 25 then shiftIndex - 26
    else if shiftIndex < 0 then 26 + shiftIndex
    else shiftIndex
  }

  /**
   * `alphabet.charAt(shiftIndex)` after the wrap correction of `startIndex + shift`;
   * `None` where `charAt` would throw StringIndexOutOfBoundsException.
   */
  function CharAtWrapped(alphabet: string, startIndex: int, shift: int): (r: Option<char>)
    ensures r.Some? ==> r.value in alphabet
  {
    var shiftIndex := Wrap(startIndex + shift);
    if 0 <= shiftIndex < |alphabet| then Some(alphabet[shiftIndex]) else None
  }

  /**
   * One character as the loop body of `shift` treats it, branch for branch:
   * the upper-case branch first, then the lower-case one, else a copy.
   */
  function ShiftCharAsWritten(c: char, shift: int): (r: Option<char>)
    ensures r.None? ==> IsLetter(c)
    ensures !IsLetter(c) ==> r == Some(c)
    ensures r.Some? && IsUpper(c) ==> IsUpper(r.value)
    ensures r.Some? && IsLower(c) ==> IsLower(r.value)
  {
    AlphabetIndexOf(c);
    if IndexOf(UPPERCASE, c) != -1 then CharAtWrapped(UPPERCASE, IndexOf(UPPERCASE, c), shift)
    else if IndexOf(LOWERCASE, c) != -1 then CharAtWrapped(LOWERCASE, IndexOf(LOWERCASE, c), shift)
    else Some(c)
  }

  /** Reference meaning of the cipher on one character: the letter `k` places on, mod 26, in its own alphabet. */
  function RotateChar(c: char, k: int): char
  {
    if IsUpper(c) then UPPERCASE[(Pos(c) + k) % 26]
    else if IsLower(c) then LOWERCASE[(Pos(c) + k) % 26]
    else c
  }

  /** Reference meaning of the cipher on a string: `RotateChar` at every position. */
  function Rotate(s: string, k: int): string
  {
    seq(|s|, i requires 0 <= i < |s| => RotateChar(s[i], k))
  }

  /** The three branches of the loop body, told apart by case instead of by `indexOf`. */
  lemma ShiftCharBranches(c: char, shift: int)
    ensures ShiftCharAsWritten(c, shift) ==
      if IsUpper(c) then CharAtWrapped(UPPERCASE, Pos(c), shift)
      else if IsLower(c) then CharAtWrapped(LOWERCASE, Pos(c), shift)
      else Some(c)
  {
    AlphabetIndexOf(c);
  }

  /**
   * Looking up a wrapped index in a 26-letter alphabet fails exactly when
   * `startIndex + shift` leaves [-26, 51], and otherwise lands `shift` places
   * on, mod 26.
   */
  lemma CharAtWrappedMeaning(alphabet: string, startIndex: int, shift: int)
    requires |alphabet| == 26 && 0 <= startIndex < 26
    ensures CharAtWrapped(alphabet, startIndex, shift).None? <==> !(-26 <= startIndex + shift <= 51)
    ensures CharAtWrapped(alphabet, startIndex, shift).Some? ==>
      CharAtWrapped(alphabet, startIndex, shift) == Some(alphabet[(startIndex + shift) % 26])
  {
  }

  /**
   * The code fails on a character exactly when it is a letter whose place
   * plus the shift leaves [-26, 51]; every other character goes through.
   */
  lemma ShiftCharFails(c: char, shift: int)
    ensures ShiftCharAsWritten(c, shift).None? <==> IsLetter(c) && !(-26 <= Pos(c) + shift <= 51)
  {
    ShiftCharBranches(c, shift);
    if IsLetter(c) {
      CharAtWrappedMeaning(if IsUpper(c) then UPPERCASE else LOWERCASE, Pos(c), shift);
    }
  }

  /** Whenever the code does not fail on a character, it produces the mod-26 rotation. */
  lemma ShiftCharRotates(c: char, shift: int)
    ensures ShiftCharAsWritten(c, shift).Some? ==> ShiftCharAsWritten(c, shift) == Some(RotateChar(c, shift))
  {
    ShiftCharBranches(c, shift);
    if IsLetter(c) {
      CharAtWrappedMeaning(if IsUpper(c) then UPPERCASE else LOWERCASE, Pos(c), shift);
    }
  }

  /**
   * Beyond [-26, 26] the outcome depends on the letter: "A" by 27 still
   * gives "B", while "Z" by 27 and "A" by -27 make `charAt` throw.
   */
  lemma ShiftCharLargeShifts()
    ensures ShiftCharAsWritten('A', 27) == Some('B')
    ensures ShiftCharAsWritten('Z', 27).None?
    ensures ShiftCharAsWritten('A', -27).None?
    ensures ShiftCharAsWritten('7', 1000) == Some('7')
  {
    ShiftCharFails('A', 27);
    ShiftCharRotates('A', 27);
    ShiftCharFails('Z', 27);
    ShiftCharFails('A', -27);
    ShiftCharFails('7', 1000);
    ShiftCharRotates('7', 1000);
  }

  /** A shift in [-26, 26] is safe for every character, and the result is the rotation. */
  lemma ShiftCharSafe(c: char, shift: int)
    requires -26 <= shift <= 26
    ensures ShiftCharAsWritten(c, shift) == Some(RotateChar(c, shift))
  {
    ShiftCharFails(c, shift);
    ShiftCharRotates(c, shift);
  }

  /**
   * Rotation keeps a letter's case, moves its place in the alphabet by `k`
   * mod 26, and leaves every non-letter as it is.
   */
  lemma RotateCharCases(c: char, k: int)
    ensures IsUpper(RotateChar(c, k)) <==> IsUpper(c)
    ensures IsLower(RotateChar(c, k)) <==> IsLower(c)
    ensures !IsLetter(c) ==> RotateChar(c, k) == c
    ensures IsLetter(c) ==> Pos(RotateChar(c, k)) == (Pos(c) + k) % 26
  {
  }

  /** Rotating by `k` and then by `-k` gives the character back. */
  lemma RotateCharRoundTrip(c: char, k: int)
    requires -26 <= k <= 26
    ensures RotateChar(RotateChar(c, k), -k) == c
  {
    if IsLetter(c) {
      var p := Pos(c);
      var q := (p + k) % 26;
      assert q == p + k + 26 || q == p + k || q == p + k - 26;
      RotateCharCases(c, k);
      assert Pos(RotateChar(c, k)) == q;
      assert (q - k) % 26 == p;
    }
  }

  /** `shift(s, k)` then `shift(_, -k)` restores `s`. */
  lemma RotateRoundTrip(s: string, k: int)
    requires -26 <= k <= 26
    ensures Rotate(Rotate(s, k), -k) == s
  {
    forall i | 0 <= i < |s| ensures Rotate(Rotate(s, k), -k)[i] == s[i] {
      RotateCharRoundTrip(s[i], k);
    }
  }

  /** Shifting by 0, 26 or -26 changes nothing. */
  lemma RotateIdentity(s: string)
    ensures Rotate(s, 0) == s && Rotate(s, 26) == s && Rotate(s, -26) == s
  {
    forall i | 0 <= i < |s|
      ensures Rotate(s, 0)[i] == s[i] && Rotate(s, 26)[i] == s[i] && Rotate(s, -26)[i] == s[i]
    {
      if IsLetter(s[i]) {
        var p := Pos(s[i]);
        assert p % 26 == p && (p + 26) % 26 == p && (p - 26) % 26 == p;
      }
    }
  }

  /** The two examples in the documentation of `shift`: "ABC" by 3 and by -3. */
  lemma RotateDocExamples()
    ensures Rotate("ABC", 3) == "DEF"
    ensures Rotate("ABC", -3) == "XYZ"
  {
  }

  /** Letters near the end of the alphabet wrap to its start. */
  lemma RotateWrapExample()
    ensures Rotate("AB", 3) == "DE" && Rotate("yz", 3) == "bc" && Rotate("", 3) == ""
  {
  }

  /** Case is kept and punctuation, blanks and digits pass through. */
  lemma RotateMixedExample()
    ensures Rotate("AbC", 1) == "BcD"
    ensures Rotate("Hello, World! 123", 3) == "Khoor, Zruog! 123"
  {
  }

  lemma RotateSentenceExample()
    ensures Rotate("Attack at dawn", 5) == "Fyyfhp fy ifbs"
  {
  }

  /**
   * `SubstitutionCipher.shift`: builds the result one append per input
   * character. Safe only for shifts in [-26, 26], where each character gets
   * what the code's branches compute, which is its mod-26 rotation.
   */
  method Shift(input: string, shift: int) returns (r: string)
    requires -26 <= shift <= 26
    ensures r == Rotate(input, shift)
    ensures forall i :: 0 <= i < |input| ==> ShiftCharAsWritten(input[i], shift) == Some(r[i])
  {
    var sb: string := [];
    for i := 0 to |input|
      invariant |sb| == i
      invariant forall j :: 0 <= j < i ==> sb[j] == RotateChar(input[j], shift)
    {
      var charToSwap := input[i];
      ShiftCharSafe(charToSwap, shift);
      if IndexOf(UPPERCASE, charToSwap) != -1 {
        var startIndex := IndexOf(UPPERCASE, charToSwap);
        var shiftIndex := startIndex + shift;
        if shiftIndex > 25 {
          shiftIndex := shiftIndex - 26;
        } else if shiftIndex < 0 {
          shiftIndex := 26 + shiftIndex;
        }
        sb := sb + [UPPERCASE[shiftIndex]];
      } else if IndexOf(LOWERCASE, charToSwap) != -1 {
        var startIndex := IndexOf(LOWERCASE, charToSwap);
        var shiftIndex := startIndex + shift;
        if shiftIndex > 25 {
          shiftIndex := shiftIndex - 26;
        } else if shiftIndex < 0 {
          shiftIndex := 26 + shiftIndex;
        }
        sb := sb + [LOWERCASE[shiftIndex]];
      } else {
        sb := sb + [charToSwap];
      }
    }
    r := sb;
    forall i | 0 <= i < |input| ensures ShiftCharAsWritten(input[i], shift) == Some(r[i]) {
      ShiftCharSafe(input[i], shift);
    }
  }
}
