/** Octet strings and the few `strings` package operations the server applies to them.

    Go strings and byte slices are both sequences of octets. An octet is written here as
    a character below 256, so that the ASCII literals of the server read as string
    literals; no character encoding is involved anywhere. */
module ByteStrings {
  import opened Wrappers

  type byte = c: char | c as int < 256
  type Bytes = seq<byte>

  const CR: byte := '\r'
  const LF: byte := '\n'
  const CRLF: Bytes := "\r\n"

  lemma Assoc(a: Bytes, b: Bytes, c: Bytes)
    ensures a + (b + c) == a + b + c
  {
  }

  /** `strings.HasPrefix`: `prefix` is an initial segment of `s`, that is, `s` is at least
      as long and agrees with `prefix` octet by octet over its length. */
  predicate HasPrefix(s: Bytes, prefix: Bytes): (b: bool)
    ensures b <==> |prefix| <= |s| && forall i :: 0 <= i < |prefix| ==> s[i] == prefix[i]
    ensures b ==> s == prefix + s[|prefix|..]
  {
    |prefix| <= |s| && s[..|prefix|] == prefix
  }

  /** Every extension of `prefix` starts with it, so with the second clause of `HasPrefix`
      a string starts with `prefix` exactly when it is `prefix` followed by something. */
  lemma HasPrefixOfConcat(prefix: Bytes, rest: Bytes)
    ensures HasPrefix(prefix + rest, prefix)
  {
    assert (prefix + rest)[..|prefix|] == prefix;
  }

  /** `strings.TrimPrefix`: `s` without a leading `prefix`, or `s` itself when it does
      not start with `prefix`. */
  function TrimPrefix(s: Bytes, prefix: Bytes): (r: Bytes)
    ensures HasPrefix(s, prefix) ==> prefix + r == s
    ensures !HasPrefix(s, prefix) ==> r == s
    ensures |r| <= |s|
  {
    if HasPrefix(s, prefix) then s[|prefix|..] else s
  }

  /** Removing a prefix that was just put in front gives back what followed it. */
  lemma TrimPrefixOfConcat(prefix: Bytes, rest: Bytes)
    ensures HasPrefix(prefix + rest, prefix)
    ensures TrimPrefix(prefix + rest, prefix) == rest
  {
    assert (prefix + rest)[..|prefix|] == prefix;
  }

  /** A prefix differs from `s` at some position `i` it covers, so `s` does not start with it. */
  lemma NotPrefixAt(s: Bytes, prefix: Bytes, i: nat)
    requires i < |prefix| && i < |s| && s[i] != prefix[i]
    ensures !HasPrefix(s, prefix)
  {
    if |prefix| <= |s| {
      assert s[..|prefix|][i] == s[i];
    }
  }

  /** `pat` occurs in `s` starting at position `i`. */
  predicate OccursAt(s: Bytes, pat: Bytes, i: nat) {
    i + |pat| <= |s| && s[i..i + |pat|] == pat
  }

  /** The first position at or after `from` where `pat` occurs in `s`, if any. */
  function FindFrom(s: Bytes, pat: Bytes, from: nat): (r: Option<nat>)
    requires from <= |s|
    ensures r.Some? ==> from <= r.value && OccursAt(s, pat, r.value)
    ensures r.Some? ==> forall j :: from <= j < r.value ==> !OccursAt(s, pat, j)
    ensures r.None? ==> forall j :: from <= j <= |s| ==> !OccursAt(s, pat, j)
    decreases |s| - from
  {
    if from + |pat| > |s| then None
    else if s[from..from + |pat|] == pat then Some(from)
    else FindFrom(s, pat, from + 1)
  }

  /** The first position where `pat` occurs in `s`, if any. */
  function Find(s: Bytes, pat: Bytes): (r: Option<nat>)
    ensures r.Some? ==> OccursAt(s, pat, r.value)
    ensures r.Some? ==> forall j :: 0 <= j < r.value ==> !OccursAt(s, pat, j)
    ensures r.None? ==> forall j :: 0 <= j <= |s| ==> !OccursAt(s, pat, j)
  {
    FindFrom(s, pat, 0)
  }

  /** `b` does not occur in `s`. */
  predicate Free(s: Bytes, b: byte) {
    forall i :: 0 <= i < |s| ==> s[i] != b
  }

  /** `s` holds no line-break octet, so it can sit on one line of a message head. */
  predicate NoLineBreak(s: Bytes) {
    Free(s, CR) && Free(s, LF)
  }

  /** When the first octet of `pat` does not occur in `x`, the first occurrence of `pat`
      in `x + pat + y` is the one right after `x`. */
  lemma FindAfterFree(x: Bytes, pat: Bytes, y: Bytes)
    requires |pat| > 0 && Free(x, pat[0])
    ensures Find(x + pat + y, pat) == Some(|x|)
  {
    var s := x + pat + y;
    assert s[|x|..|x| + |pat|] == pat;
    assert OccursAt(s, pat, |x|);
    forall j | 0 <= j < |x|
      ensures !OccursAt(s, pat, j)
    {
      if j + |pat| <= |s| {
        assert s[j..j + |pat|][0] == x[j];
      }
    }
  }
}
