/** The java.lang.String operations the program relies on: lastIndexOf and the
    space padding of String.format's "%-Ns" and "%Ns" conversions. */
module Text {

  function Max(a: int, b: int): int {
    if a < b then b else a
  }

  function Spaces(n: nat): (s: string)
    ensures |s| == n
  {
    if n == 0 then "" else Spaces(n - 1) + " "
  }

  lemma {:induction false} SpacesAreSpaces(n: nat)
    ensures forall i :: 0 <= i < n ==> Spaces(n)[i] == ' '
  {
    if n > 0 {
      SpacesAreSpaces(n - 1);
    }
  }

  /** String.lastIndexOf(c): the index of the last occurrence of c, or -1 when there is none. */
  function LastIndexOf(s: string, c: char): (i: int)
    ensures -1 <= i < |s|
    ensures i >= 0 ==> s[i] == c
    ensures forall j :: i < j < |s| ==> s[j] != c
    decreases |s|
  {
    if |s| == 0 then -1
    else if s[|s| - 1] == c then |s| - 1
    else LastIndexOf(s[..|s| - 1], c)
  }

  lemma {:induction false} LastIndexOfAppend(a: string, b: string, c: char)
    ensures c in b ==> LastIndexOf(a + b, c) == |a| + LastIndexOf(b, c)
    ensures c !in b ==> LastIndexOf(a + b, c) == LastIndexOf(a, c)
  {
    if b != [] {
      assert (a + b)[..|a + b| - 1] == a + b[..|b| - 1];
      if b[|b| - 1] != c {
        LastIndexOfAppend(a, b[..|b| - 1], c);
        assert c in b ==> c in b[..|b| - 1] by {
          if c in b {
            var k :| 0 <= k < |b| && b[k] == c;
            assert b[..|b| - 1][k] == c;
          }
        }
      }
    } else {
      assert a + b == a;
    }
  }

  /** String.format("%-Ns", s): s left-justified in a field of width N, never truncated. */
  function PadRight(s: string, width: nat): (r: string)
    ensures |r| == Max(width, |s|)
    ensures r[..|s|] == s
  {
    if |s| >= width then s else s + Spaces(width - |s|)
  }

  /** What PadRight adds is spaces. */
  lemma PadRightSpaces(s: string, width: nat)
    ensures forall i :: |s| <= i < |PadRight(s, width)| ==> PadRight(s, width)[i] == ' '
  {
    if |s| < width {
      SpacesAreSpaces(width - |s|);
    }
  }

  /** String.format("%Ns", s): s right-justified in a field of width N, never truncated. */
  function PadLeft(s: string, width: nat): (r: string)
    ensures |r| == Max(width, |s|)
    ensures r[|r| - |s|..] == s
  {
    if |s| >= width then s else Spaces(width - |s|) + s
  }

  /** What PadLeft adds is spaces. */
  lemma PadLeftSpaces(s: string, width: nat)
    ensures forall i :: 0 <= i < |PadLeft(s, width)| - |s| ==> PadLeft(s, width)[i] == ' '
  {
    if |s| < width {
      SpacesAreSpaces(width - |s|);
    }
  }
}
