/** The guid cleaning shared by both scenarios: the textual guid with its
    hyphens removed. The guid itself is random in the client; here it is an input. */
module Common {
  import opened Strings

  /** The canonical textual form of a guid: 8-4-4-4-12 hexadecimal digits
      separated by hyphens. */
  predicate IsHexDigit(c: char) {
    '0' <= c <= '9' || 'a' <= c <= 'f' || 'A' <= c <= 'F'
  }

  predicate IsGuidText(g: string) {
    && |g| == 36
    && g[8] == '-' && g[13] == '-' && g[18] == '-' && g[23] == '-'
    && forall i :: 0 <= i < 36 && i != 8 && i != 13 && i != 18 && i != 23 ==> IsHexDigit(g[i])
  }

  /** The guid text with every '-' removed, everything else kept in order. */
  function CleanGuid(guid: string): (r: string)
    ensures '-' !in r
    ensures |r| == |guid| - Count(guid, '-')
    ensures forall x :: x in r <==> x in guid && x != '-'
    ensures forall x :: x != '-' ==> multiset(r)[x] == multiset(guid)[x]
  {
    RemoveKeepsOthers(guid, '-');
    Remove(guid, '-')
  }

  /** Cleaning works piecewise, so the kept characters stay in input order. */
  lemma CleanGuidPiecewise(a: string, b: string)
    ensures CleanGuid(a + b) == CleanGuid(a) + CleanGuid(b)
  {
    RemoveAppend(a, b, '-');
  }

  /** Cleaning an already-clean guid changes nothing. */
  lemma CleanGuidIdempotent(guid: string)
    ensures CleanGuid(CleanGuid(guid)) == CleanGuid(guid)
  {
    RemoveIdempotent(guid, '-');
  }

  /** Cleaning text that begins with a hyphen-free segment and a hyphen. */
  lemma CleanAfterSegment(x: string, y: string)
    requires '-' !in x
    ensures CleanGuid(x + "-" + y) == x + CleanGuid(y)
  {
    assert x + "-" + y == (x + "-") + y;
    RemoveAppend(x + "-", y, '-');
    RemoveAppend(x, "-", '-');
    RemoveAbsent(x, '-');
  }

  /** A canonical guid cleans to exactly its 32 hexadecimal digits. */
  lemma CleanCanonicalGuid(g: string)
    requires IsGuidText(g)
    ensures |CleanGuid(g)| == 32
    ensures forall x :: x in CleanGuid(g) ==> IsHexDigit(x)
  {
    assert forall x :: x in g ==> x == '-' || IsHexDigit(x);
    var e := g[24..];
    assert '-' !in e;
    RemoveAbsent(e, '-');
    var d := g[19..23];
    assert '-' !in d;
    assert g[19..] == d + "-" + e;
    CleanAfterSegment(d, e);
    var c := g[14..18];
    assert '-' !in c;
    assert g[14..] == c + "-" + g[19..];
    CleanAfterSegment(c, g[19..]);
    var b := g[9..13];
    assert '-' !in b;
    assert g[9..] == b + "-" + g[14..];
    CleanAfterSegment(b, g[14..]);
    var a := g[..8];
    assert '-' !in a;
    assert g == a + "-" + g[9..];
    CleanAfterSegment(a, g[9..]);
  }
}
