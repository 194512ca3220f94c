/** Currency codes as the shared money type reads them. */
module Money {

  /** The white space that `trim` removes, without the rarer Unicode separators. */
  predicate IsSpace(c: char) {
    c in {' ', '\t', '\n', '\r', '\U{0B}', '\U{0C}', '\U{A0}', '\U{FEFF}'}
  }

  /** An empty code, or one of white space only, is refused by every amount. */
  predicate Blank(code: string) {
    forall i :: 0 <= i < |code| ==> IsSpace(code[i])
  }

  /** Codes are compared after trimming and upper-casing. */
  function Normalised(code: string): string {
    Upper(TrimEnd(TrimStart(code)))
  }

  function TrimStart(s: string): string {
    if s != "" && IsSpace(s[0]) then TrimStart(s[1..]) else s
  }

  function TrimEnd(s: string): string {
    if s != "" && IsSpace(s[|s| - 1]) then TrimEnd(s[..|s| - 1]) else s
  }

  function Upper(s: string): string {
    seq(|s|, i requires 0 <= i < |s| => if 'a' <= s[i] <= 'z' then s[i] - 'a' + 'A' else s[i])
  }

  lemma {:induction false} TrimStartBlank(s: string)
    ensures Blank(s) <==> TrimStart(s) == ""
    ensures TrimStart(s) == "" || !IsSpace(TrimStart(s)[0])
  {
    if s != "" && IsSpace(s[0]) {
      TrimStartBlank(s[1..]);
      assert forall i :: 1 <= i < |s| ==> s[1..][i - 1] == s[i];
    }
  }

  lemma {:induction false} TrimEndBlank(s: string)
    ensures Blank(s) <==> TrimEnd(s) == ""
  {
    if s != "" && IsSpace(s[|s| - 1]) {
      TrimEndBlank(s[..|s| - 1]);
    }
  }

  /** A code is blank exactly when nothing is left of it. */
  lemma BlankHasNoCode(code: string)
    ensures Blank(code) <==> Normalised(code) == ""
  {
    TrimStartBlank(code);
    TrimEndBlank(TrimStart(code));
    hide IsSpace, TrimStart, TrimEnd;
    assert |Normalised(code)| == |TrimEnd(TrimStart(code))|;
  }

  /** What is left of a code: the part between its outer white space, in capitals. */
  lemma NormalisedExactly(code: string) returns (i: nat, j: nat)
    ensures i <= j <= |code| && Blank(code[..i]) && Blank(code[j..])
    ensures i < j ==> !IsSpace(code[i]) && !IsSpace(code[j - 1])
    ensures |Normalised(code)| == j - i
    ensures forall k :: i <= k < j ==>
              Normalised(code)[k - i] == if 'a' <= code[k] <= 'z' then code[k] - 'a' + 'A' else code[k]
  {
    i := TrimStartAt(code);
    var n := TrimEndAt(code[i..]);
    hide IsSpace, TrimStart, TrimEnd;
    j := i + n;
    assert code[j..] == code[i..][n..];
  }

  lemma {:induction false} TrimStartAt(s: string) returns (i: nat)
    ensures i <= |s| && TrimStart(s) == s[i..] && Blank(s[..i])
    ensures i < |s| ==> !IsSpace(s[i])
  {
    hide IsSpace;
    i := 0;
    if s != "" && IsSpace(s[0]) {
      i := TrimStartAt(s[1..]);
      assert s[1..][..i] == s[1..i + 1];
      i := i + 1;
    }
  }

  lemma {:induction false} TrimEndAt(s: string) returns (n: nat)
    ensures n <= |s| && TrimEnd(s) == s[..n] && Blank(s[n..])
    ensures n > 0 ==> !IsSpace(s[n - 1])
  {
    hide IsSpace;
    n := |s|;
    if s != "" && IsSpace(s[|s| - 1]) {
      n := TrimEndAt(s[..|s| - 1]);
      assert s[..|s| - 1][..n] == s[..n];
      forall k | n <= k < |s|
        ensures IsSpace(s[k])
      {
        if k < |s| - 1 {
          assert s[k] == s[..|s| - 1][n..][k - n];
        }
      }
    }
  }
}
