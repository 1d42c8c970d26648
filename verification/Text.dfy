/** Texts as Go's strings package trims them. */
module Text {

  /** The characters Go's unicode.IsSpace takes for white space. */
  predicate IsSpace(c: char) {
    var n := c as int;
    9 <= n <= 13 || n == 0x20 || n == 0x85 || n == 0xA0 || n == 0x1680 || 0x2000 <= n <= 0x200A ||
    n == 0x2028 || n == 0x2029 || n == 0x202F || n == 0x205F || n == 0x3000
  }

  function TrimLeft(s: string): string {
    if s != [] && IsSpace(s[0]) then TrimLeft(s[1..]) else s
  }

  function TrimRight(s: string): string {
    if s != [] && IsSpace(s[|s| - 1]) then TrimRight(s[..|s| - 1]) else s
  }

  /** strings.TrimSpace. */
  function TrimSpace(s: string): string {
    TrimRight(TrimLeft(s))
  }

  /** Nothing to trim: neither end is white space. */
  predicate Trimmed(s: string) {
    s != [] ==> !IsSpace(s[0]) && !IsSpace(s[|s| - 1])
  }

  /** What is left of a text is a stretch of it with nothing to trim, white space around it. */
  lemma {:induction false} TrimSpaceIsStretch(s: string) returns (i: nat, j: nat)
    ensures i <= j <= |s| && TrimSpace(s) == s[i..j]
    ensures Trimmed(TrimSpace(s))
    ensures forall k :: 0 <= k < i || j <= k < |s| ==> IsSpace(s[k])
  {
    i := TrimLeftIsTail(s);
    var n := TrimRightIsHead(TrimLeft(s));
    j := i + n;
    assert TrimLeft(s)[..n] == s[i..j];
    forall k | j <= k < |s| ensures IsSpace(s[k]) {
      assert s[k] == TrimLeft(s)[k - i];
    }
  }

  lemma {:induction false} TrimLeftIsTail(s: string) returns (i: nat)
    ensures i <= |s| && TrimLeft(s) == s[i..] && forall k :: 0 <= k < i ==> IsSpace(s[k])
    ensures TrimLeft(s) != [] ==> !IsSpace(TrimLeft(s)[0])
  {
    i := 0;
    if s != [] && IsSpace(s[0]) {
      var k := TrimLeftIsTail(s[1..]);
      i := k + 1;
      assert s[1..][k..] == s[i..];
      assert forall x :: 0 < x < i ==> s[x] == s[1..][x - 1];
    }
  }

  lemma {:induction false} TrimRightIsHead(s: string) returns (n: nat)
    ensures n <= |s| && TrimRight(s) == s[..n] && forall k :: n <= k < |s| ==> IsSpace(s[k])
    ensures TrimRight(s) != [] ==> !IsSpace(TrimRight(s)[n - 1])
  {
    n := |s|;
    if s != [] && IsSpace(s[|s| - 1]) {
      n := TrimRightIsHead(s[..|s| - 1]);
      assert s[..|s| - 1][..n] == s[..n];
    }
  }

  /** Trimming changes exactly the texts that begin or end with white space. */
  lemma TrimSpaceFixpoint(s: string)
    ensures TrimSpace(s) == s <==> Trimmed(s)
  {
    var i, j := TrimSpaceIsStretch(s);
  }
}
