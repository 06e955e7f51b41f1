/** The upper end of a prefix scan. */
module PrefixRange {
  import opened Bytes

  function Upper(prefix: bytes): Option<bytes> {
    if prefix == [] then None
    else
      var n := |prefix| - 1;
      if prefix[n] < 0xFF then Some(prefix[..n] + [prefix[n] + 1]) else Upper(prefix[..n])
  }

  /** Drops trailing 0xFF bytes and increments the byte before them. */
  method PrefixUpperBound(prefix: bytes) returns (r: Option<bytes>)
    ensures r == Upper(prefix)
  {
    var end := prefix;
    while end != []
      invariant Upper(prefix) == Upper(end)
    {
      var last := |end| - 1;
      if end[last] < 0xFF {
        end := end[last := end[last] + 1];
        assert end == end[..last] + [end[last]];
        return Some(end);
      }
      end := end[..last];
    }
    return None;
  }

  lemma {:induction false} UpperFront(b: byte, rest: bytes)
    ensures Upper([b] + rest) ==
      match Upper(rest)
      case Some(u) => Some([b] + u)
      case None => if b < 0xFF then Some([b + 1]) else None
  {
    var p := [b] + rest;
    if rest != [] {
      var n := |rest| - 1;
      assert p[|p| - 1] == rest[n] && p[..|p| - 1] == [b] + rest[..n];
      if rest[n] < 0xFF {
        Assoc([b], rest[..n], [rest[n] + 1]);
      } else {
        UpperFront(b, rest[..n]);
      }
    } else {
      assert p[..0] == [] && [] + [b + 1] == [b + 1];
    }
  }

  lemma LessFront(b: byte, c: byte, s: bytes, t: bytes)
    ensures Less([b] + s, [c] + t) <==> b < c || (b == c && Less(s, t))
  {
    assert ([b] + s)[1..] == s && ([c] + t)[1..] == t;
  }

  lemma PrefixFront(b: byte, c: byte, s: bytes, t: bytes)
    ensures [b] + s <= [c] + t <==> b == c && s <= t
  {
    var x, y := [b] + s, [c] + t;
    assert x[1..] == s && y[1..] == t;
    if x <= y {
      assert x[0] == y[0];
      assert forall i :: 0 <= i < |s| ==> s[i] == x[i + 1] == y[i + 1] == t[i];
    }
  }

  ghost predicate InRange(k: bytes, prefix: bytes) {
    Leq(prefix, k) && (Upper(prefix).Some? ==> Less(k, Upper(prefix).value))
  }

  /** The keys from the prefix up to its bound, or to the end without one, are exactly those that start with it. */
  lemma {:induction false} PrefixRangeExact(prefix: bytes, k: bytes)
    ensures InRange(k, prefix) <==> prefix <= k
  {
    if prefix == [] {
    } else if k == [] {
    } else {
      Uncons(prefix);
      Uncons(k);
      var b, s, c, t := prefix[0], prefix[1..], k[0], k[1..];
      PrefixRangeExact(s, t);
      UpperFront(b, s);
      PrefixFront(b, c, s, t);
      LessFront(c, b, t, s);
      if Upper(s).Some? {
        LessFront(c, b, t, Upper(s).value);
      } else if b < 0xFF {
        LessFront(c, b + 1, t, []);
        assert [b + 1] + [] == [b + 1];
      }
    }
  }

  ghost predicate AboveAll(k: bytes, prefix: bytes) {
    forall j :: prefix <= j ==> Less(j, k)
  }

  /** The bound is the least key above every key with the prefix; there is none exactly when no key is. */
  lemma UpperIsLeast(prefix: bytes, k: bytes)
    ensures AboveAll(k, prefix) <==> Upper(prefix).Some? && Leq(Upper(prefix).value, k)
  {
    LessTotal(k, k);
    LessTotal(prefix, k);
    PrefixRangeExact(prefix, k);
    if AboveAll(k, prefix) {
      assert Less(prefix, k);
      assert prefix <= k ==> Less(k, k);
    }
    if Upper(prefix).Some? && Leq(Upper(prefix).value, k) {
      forall j | prefix <= j ensures Less(j, k) {
        PrefixRangeExact(prefix, j);
        LeqLessTransitive(j, Upper(prefix).value, k);
      }
    }
  }

  /** There is no bound exactly for the prefixes made of 0xFF bytes alone, the empty one included. */
  lemma {:induction false} NoUpper(prefix: bytes)
    ensures Upper(prefix).None? <==> forall i :: 0 <= i < |prefix| ==> prefix[i] == 0xFF
  {
    if prefix != [] {
      var n := |prefix| - 1;
      NoUpper(prefix[..n]);
      assert forall i :: 0 <= i < n ==> prefix[..n][i] == prefix[i];
    }
  }
}
