/**
 * The two string operations the feed extractor applies to XML text:
 * Python's `str.strip()` (remove leading and trailing white space) and the
 * compatibility shim `str.replace('GMT', '+0000')` applied to publication dates.
 */
module Text {

  /** Python's `str.isspace()` for one character (the Unicode white-space set). */
  predicate IsSpace(c: char)
  {
    c == ' ' || ('\t' <= c <= '\r') || ('\U{1c}' <= c <= '\U{1f}') ||
    c == '\U{85}' || c == '\U{a0}' || c == '\U{1680}' ||
    ('\U{2000}' <= c <= '\U{200a}') || c == '\U{2028}' || c == '\U{2029}' ||
    c == '\U{202f}' || c == '\U{205f}' || c == '\U{3000}'
  }

  /** No white space at either end. */
  predicate Stripped(s: string)
  {
    s == [] || (!IsSpace(s[0]) && !IsSpace(s[|s| - 1]))
  }

  /** The first index at or after `i` holding no white space (or `|s|`): everything skipped is white space. */
  function SkipLeft(s: string, i: nat): (r: nat)
    requires i <= |s|
    ensures i <= r <= |s|
    ensures forall k :: i <= k < r ==> IsSpace(s[k])
    ensures r < |s| ==> !IsSpace(s[r])
    decreases |s| - i
  {
    if i < |s| && IsSpace(s[i]) then SkipLeft(s, i + 1) else i
  }

  /** The end `r` of `s[lo..j]` once its trailing white space is skipped: everything skipped is white space. */
  function SkipRight(s: string, lo: nat, j: nat): (r: nat)
    requires lo <= j <= |s|
    ensures lo <= r <= j
    ensures forall k :: r <= k < j ==> IsSpace(s[k])
    ensures r > lo ==> !IsSpace(s[r - 1])
    decreases j
  {
    if j > lo && IsSpace(s[j - 1]) then SkipRight(s, lo, j - 1) else j
  }

  /**
   * Python's `s.strip()`: the result is the slice `s[i..j]` where everything
   * before `i` and from `j` on is white space, and the slice itself starts and
   * ends with a non-space character (or is empty).
   */
  function Strip(s: string): (r: string)
    ensures Stripped(r)
    ensures exists i, j :: (0 <= i <= j <= |s| && r == s[i..j] &&
      (forall k :: 0 <= k < i ==> IsSpace(s[k])) && (forall k :: j <= k < |s| ==> IsSpace(s[k])))
  {
    var i := SkipLeft(s, 0);
    var j := SkipRight(s, i, |s|);
    assert forall k :: j <= k < |s| ==> IsSpace(s[k]);
    s[i..j]
  }

  /** Stripping changes nothing in a string with no white space at its ends. */
  lemma StripOfStripped(s: string)
    requires Stripped(s)
    ensures Strip(s) == s
  {
  }

  /** `strip()` is idempotent. */
  lemma StripIdempotent(s: string)
    ensures Strip(Strip(s)) == Strip(s)
  {
    StripOfStripped(Strip(s));
  }

  /** The literal token the shim looks for starts at index `i` of `s`. */
  predicate GmtAt(s: string, i: int)
    requires 0 <= i && i + 3 <= |s|
  {
    s[i] == 'G' && s[i + 1] == 'M' && s[i + 2] == 'T'
  }

  predicate ContainsGmt(s: string)
  {
    exists i :: 0 <= i && i + 3 <= |s| && GmtAt(s, i)
  }

  /**
   * Python's `s.replace('GMT', '+0000')`: every occurrence, scanning left to
   * right without overlap, is replaced by the numeric UTC offset.
   */
  function ReplaceGmt(s: string): string
  {
    if |s| >= 3 && GmtAt(s, 0) then "+0000" + ReplaceGmt(s[3..])
    else if s == [] then []
    else [s[0]] + ReplaceGmt(s[1..])
  }

  /** A first character other than '+' is copied from the input, which then does not start with the token. */
  lemma {:induction false} ReplaceGmtHead(s: string)
    requires ReplaceGmt(s) != [] && ReplaceGmt(s)[0] != '+'
    ensures s != [] && !(|s| >= 3 && GmtAt(s, 0))
    ensures ReplaceGmt(s) == [s[0]] + ReplaceGmt(s[1..])
  {
  }

  /** After the shim no `GMT` token is left, so it never has to be applied twice. */
  lemma {:induction false} ReplaceGmtRemovesAll(s: string)
    ensures !ContainsGmt(ReplaceGmt(s))
    decreases |s|
  {
    var r := ReplaceGmt(s);
    if |s| >= 3 && GmtAt(s, 0) {
      ReplaceGmtRemovesAll(s[3..]);
      var rest := ReplaceGmt(s[3..]);
      assert r == "+0000" + rest;
      forall i | 0 <= i && i + 3 <= |r| ensures !GmtAt(r, i) {
        if i < 5 {
          assert r[i] == "+0000"[i];
        } else {
          assert r[i] == rest[i - 5] && r[i + 1] == rest[i - 4] && r[i + 2] == rest[i - 3];
          assert !GmtAt(rest, i - 5);
        }
      }
    } else if s != [] {
      ReplaceGmtRemovesAll(s[1..]);
      var rest := ReplaceGmt(s[1..]);
      assert r == [s[0]] + rest;
      forall i | 0 <= i && i + 3 <= |r| ensures !GmtAt(r, i) {
        if i == 0 {
          if GmtAt(r, 0) {
            assert rest[0] == 'M';
            ReplaceGmtHead(s[1..]);
            var rest2 := ReplaceGmt(s[2..]);
            assert rest2[0] == 'T';
            ReplaceGmtHead(s[2..]);
            assert false;
          }
        } else {
          assert r[i] == rest[i - 1] && r[i + 1] == rest[i] && r[i + 2] == rest[i + 1];
          assert !GmtAt(rest, i - 1);
        }
      }
    }
  }

  /** Text without a 'G' passes through the shim unchanged, and the shim works piecewise after it. */
  lemma {:induction false} ReplaceGmtSkipsPrefix(p: string, q: string)
    requires forall k :: 0 <= k < |p| ==> p[k] != 'G'
    ensures ReplaceGmt(p + q) == p + ReplaceGmt(q)
    decreases |p|
  {
    if p != [] {
      assert (p + q)[0] == p[0];
      assert (p + q)[1..] == p[1..] + q;
      assert ReplaceGmt(p + q) == [p[0]] + ReplaceGmt(p[1..] + q);
      ReplaceGmtSkipsPrefix(p[1..], q);
      assert p == [p[0]] + p[1..];
    } else {
      assert p + q == q;
    }
  }

  lemma ReplaceGmtToken()
    ensures ReplaceGmt("GMT") == "+0000"
  {
    assert "GMT"[3..] == [];
  }

  /** G-free text followed by `GMT` comes out of the shim with `+0000` instead. */
  lemma ReplaceGmtSuffix(head: string)
    requires forall k :: 0 <= k < |head| ==> head[k] != 'G'
    ensures ReplaceGmt(head + "GMT") == head + "+0000"
  {
    ReplaceGmtSkipsPrefix(head, "GMT");
    ReplaceGmtToken();
  }

  /** A stripped G-free text followed by `GMT` comes out of strip-then-shim with `+0000` instead. */
  lemma StripReplaceGmtSuffix(head: string)
    requires Stripped(head + "GMT") && forall k :: 0 <= k < |head| ==> head[k] != 'G'
    ensures ReplaceGmt(Strip(head + "GMT")) == head + "+0000"
  {
    var s := head + "GMT";
    ShimOfStripped(s);
    ReplaceGmtSuffix(head);
  }

  lemma ShimOfStripped(s: string)
    requires Stripped(s)
    ensures ReplaceGmt(Strip(s)) == ReplaceGmt(s)
  {
    StripOfStripped(s);
  }
}
