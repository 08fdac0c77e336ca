/** What `str.strip` does, to text that is Latin-1 or has no blanks beyond it. */
module Strings {
  predicate IsSpace(c: char) {
    var n := c as int;
    9 <= n <= 13 || 28 <= n <= 32 || n == 0x85 || n == 0xA0
  }

  function StripLeft(s: string): string {
    if s != [] && IsSpace(s[0]) then StripLeft(s[1..]) else s
  }

  function StripRight(s: string): string {
    if s != [] && IsSpace(s[|s| - 1]) then StripRight(s[..|s| - 1]) else s
  }

  function Strip(s: string): string {
    StripRight(StripLeft(s))
  }

  /** The characters stripped: tab to carriage return, the four separators and the space, and Latin-1's two. */
  lemma SpacesAre(c: char)
    ensures IsSpace(c) <==>
      c in ['\t', '\n', '\U{0B}', '\U{0C}', '\r', '\U{1C}', '\U{1D}', '\U{1E}', '\U{1F}', ' ', '\U{85}', '\U{A0}']
  {
  }

  ghost predicate AllBlank(s: string) {
    forall i :: 0 <= i < |s| ==> IsSpace(s[i])
  }

  /** What is stripped off either end is blank, and what is left begins and ends with something. */
  lemma StripIs(s: string) returns (i: nat, j: nat)
    ensures i <= j <= |s| && Strip(s) == s[i..j] && AllBlank(s[..i]) && AllBlank(s[j..])
    ensures i < j ==> !IsSpace(s[i]) && !IsSpace(s[j - 1])
  {
    i := StripsLeft(s);
    var left := s[i..];
    var k := StripsRight(left);
    j := i + k;
    assert left[k..] == s[j..] && left[..k] == s[i..j];
  }

  lemma {:induction false} StripsLeft(s: string) returns (i: nat)
    ensures i <= |s| && StripLeft(s) == s[i..] && AllBlank(s[..i]) && (i < |s| ==> !IsSpace(s[i]))
  {
    if s != [] && IsSpace(s[0]) {
      var k := StripsLeft(s[1..]);
      i := k + 1;
      assert s[1..][k..] == s[i..] && s[..i] == [s[0]] + s[1..][..k];
    } else {
      i := 0;
    }
  }

  lemma {:induction false} StripsRight(s: string) returns (j: nat)
    ensures j <= |s| && StripRight(s) == s[..j] && AllBlank(s[j..]) && (j > 0 ==> !IsSpace(s[j - 1]))
  {
    if s != [] && IsSpace(s[|s| - 1]) {
      var init := s[..|s| - 1];
      j := StripsRight(init);
      assert init[..j] == s[..j] && s[j..] == init[j..] + [s[|s| - 1]];
    } else {
      j := |s|;
    }
  }
}
