/** Go strings as sequences of runes: trimming, byte length and byte order. */
module Text {

  // unicode.IsSpace
  predicate IsSpace(c: char) {
    || '\t' <= c <= '\r' || c == ' ' || c == '\U{85}' || c == '\U{A0}' || c == '\U{1680}'
    || '\U{2000}' <= c <= '\U{200A}' || c == '\U{2028}' || c == '\U{2029}'
    || c == '\U{202F}' || c == '\U{205F}' || c == '\U{3000}'
  }

  function TrimLeft(s: string): string {
    if s != [] && IsSpace(s[0]) then TrimLeft(s[1..]) else s
  }

  function TrimRight(s: string): string {
    if s != [] && IsSpace(s[|s| - 1]) then TrimRight(s[..|s| - 1]) else s
  }

  // strings.TrimSpace
  function TrimSpace(s: string): string {
    TrimRight(TrimLeft(s))
  }

  predicate Blank(s: string) {
    TrimSpace(s) == []
  }

  predicate Trimmed(s: string) {
    s == [] || (!IsSpace(s[0]) && !IsSpace(s[|s| - 1]))
  }

  lemma {:induction false} TrimRightIsPrefix(s: string)
    ensures TrimRight(s) <= s
    ensures TrimRight(s) != [] ==> !IsSpace(TrimRight(s)[|TrimRight(s)| - 1])
  {
    if s != [] && IsSpace(s[|s| - 1]) {
      TrimRightIsPrefix(s[..|s| - 1]);
    }
  }

  lemma {:induction false} TrimLeftStart(s: string)
    ensures TrimLeft(s) != [] ==> !IsSpace(TrimLeft(s)[0])
  {
    if s != [] && IsSpace(s[0]) {
      TrimLeftStart(s[1..]);
    }
  }

  lemma TrimSpaceTrims(s: string)
    ensures Trimmed(TrimSpace(s))
    ensures Trimmed(s) ==> TrimSpace(s) == s
  {
    TrimLeftStart(s);
    TrimRightIsPrefix(TrimLeft(s));
  }

  predicate AllSpace(s: string) {
    forall c | c in s :: IsSpace(c)
  }

  lemma {:induction false} TrimLeftIsSuffix(s: string)
    ensures var n := |s| - |TrimLeft(s)|;
            n >= 0 && s[n..] == TrimLeft(s) && forall i | 0 <= i < n :: IsSpace(s[i])
  {
    if s != [] && IsSpace(s[0]) {
      TrimLeftIsSuffix(s[1..]);
      var n := |s| - |TrimLeft(s)|;
      assert s[1..][n - 1..] == s[n..];
      forall i | 0 < i < n ensures IsSpace(s[i]) {
        assert s[1..][i - 1] == s[i];
      }
    }
  }

  lemma {:induction false} TrimRightCutsSpace(s: string)
    ensures forall i | |TrimRight(s)| <= i < |s| :: IsSpace(s[i])
  {
    if s != [] && IsSpace(s[|s| - 1]) {
      var front := s[..|s| - 1];
      TrimRightCutsSpace(front);
      forall i | |TrimRight(s)| <= i < |front| ensures IsSpace(s[i]) {
        assert front[i] == s[i];
      }
    }
  }

  lemma TrimLeftSplits(s: string) returns (spaces: string)
    ensures AllSpace(spaces) && s == spaces + TrimLeft(s)
  {
    TrimLeftIsSuffix(s);
    spaces := s[..|s| - |TrimLeft(s)|];
  }

  lemma TrimRightSplits(s: string) returns (spaces: string)
    ensures AllSpace(spaces) && s == TrimRight(s) + spaces
  {
    TrimRightIsPrefix(s);
    TrimRightCutsSpace(s);
    spaces := s[|TrimRight(s)|..];
  }

  // The padding trimmed is all space, and what remains neither starts nor ends with any.
  lemma TrimSpaceSplits(s: string) returns (left: string, right: string)
    ensures AllSpace(left) && AllSpace(right) && s == left + (TrimSpace(s) + right) && Trimmed(TrimSpace(s))
  {
    left := TrimLeftSplits(s);
    right := TrimRightSplits(TrimLeft(s));
    TrimSpaceTrims(s);
  }

  // Blank text is nothing but space.
  lemma BlankIsAllSpace(s: string)
    ensures Blank(s) <==> AllSpace(s)
  {
    var left, right := TrimSpaceSplits(s);
    if TrimSpace(s) != [] {
      assert TrimSpace(s)[0] in s;
    }
  }

  // The code points unicode.IsSpace lists.
  lemma SpacesAre(c: char)
    ensures IsSpace(c) <==>
            c as int in {0x09, 0x0A, 0x0B, 0x0C, 0x0D, 0x20, 0x85, 0xA0, 0x1680, 0x2000, 0x2001, 0x2002, 0x2003, 0x2004,
                         0x2005, 0x2006, 0x2007, 0x2008, 0x2009, 0x200A, 0x2028, 0x2029, 0x202F, 0x205F, 0x3000}
  {
    var n := c as int;
    assert '\t' <= c <= '\r' <==> n in {0x09, 0x0A, 0x0B, 0x0C, 0x0D};
  }

  lemma TrimSpaceIdempotent(s: string)
    ensures TrimSpace(TrimSpace(s)) == TrimSpace(s)
  {
    TrimSpaceTrims(s);
    TrimSpaceTrims(TrimSpace(s));
  }

  // The number of bytes of the UTF-8 encoding, which is what len reports.
  function RuneBytes(c: char): nat {
    if c < '\U{80}' then 1 else if c < '\U{800}' then 2 else if c < '\U{10000}' then 3 else 4
  }

  // How many code points fit in so many bytes of UTF-8: the values the lead byte
  // leaves, with six bits in each byte after it.
  function Capacity(bytes: nat): nat {
    match bytes
    case 0 => 0
    case 1 => 128
    case 2 => 32 * 64
    case 3 => 16 * 64 * 64
    case _ => 8 * 64 * 64 * 64
  }

  // A rune takes the fewest bytes it fits in.
  lemma FewestBytes(c: char)
    ensures 1 <= RuneBytes(c) <= 4
    ensures Capacity(RuneBytes(c) - 1) <= c as nat < Capacity(RuneBytes(c))
  {
  }

  function ByteLen(s: string): nat {
    if s == [] then 0 else RuneBytes(s[0]) + ByteLen(s[1..])
  }

  lemma {:induction false} ByteLenBounds(s: string)
    ensures |s| <= ByteLen(s)
    ensures (forall c | c in s :: c < '\U{80}') ==> ByteLen(s) == |s|
  {
    if s != [] {
      ByteLenBounds(s[1..]);
      assert s[0] in s && forall c | c in s[1..] :: c in s;
    }
  }

  // Go's < on strings: UTF-8 byte order is code point order.
  predicate Less(a: string, b: string) {
    b != [] && (a == [] || a[0] < b[0] || (a[0] == b[0] && Less(a[1..], b[1..])))
  }

  // The two part at place k, where a has the lesser rune.
  predicate PartsBelow(a: string, b: string, k: nat) {
    k < |a| && k < |b| && a[..k] == b[..k] && a[k] < b[k]
  }

  lemma PartsLater(a: string, b: string, k: nat)
    requires a != [] && b != [] && a[0] == b[0]
    ensures PartsBelow(a[1..], b[1..], k) <==> PartsBelow(a, b, k + 1)
  {
    if k < |a| - 1 && k < |b| - 1 {
      assert a[..k + 1] == [a[0]] + a[1..][..k] && b[..k + 1] == [b[0]] + b[1..][..k];
      assert a[1..][..k] == a[..k + 1][1..] && b[1..][..k] == b[..k + 1][1..];
    }
  }

  // Dictionary order: an initial part comes first, and else the first difference decides.
  lemma {:induction false} LessMeans(a: string, b: string)
    ensures Less(a, b) <==> (a < b) || exists k: nat :: PartsBelow(a, b, k)
  {
    if a != [] && b != [] && a[0] == b[0] {
      LessMeans(a[1..], b[1..]);
      assert a == [a[0]] + a[1..] && b == [b[0]] + b[1..];
      if k: nat :| PartsBelow(a[1..], b[1..], k) {
        PartsLater(a, b, k);
      }
      if k: nat :| PartsBelow(a, b, k) {
        assert k != 0;
        PartsLater(a, b, k - 1);
      }
    } else if a != [] && b != [] && a[0] < b[0] {
      assert PartsBelow(a, b, 0);
    }
  }

  predicate AtMost(a: string, b: string) {
    !Less(b, a)
  }

  lemma {:induction false} LessTransitive(a: string, b: string, c: string)
    requires Less(a, b) && Less(b, c)
    ensures Less(a, c)
  {
    if a != [] && a[0] == b[0] == c[0] {
      LessTransitive(a[1..], b[1..], c[1..]);
    }
  }

  lemma {:induction false} LessTotal(a: string, b: string)
    ensures a == b || Less(a, b) || Less(b, a)
    ensures !(Less(a, b) && Less(b, a))
    ensures !Less(a, a)
  {
    if a != [] && b != [] && a[0] == b[0] {
      LessTotal(a[1..], b[1..]);
      assert a == [a[0]] + a[1..] && b == [b[0]] + b[1..];
    } else if a != [] {
      LessTotal(a[1..], a[1..]);
    }
    if a != [] {
      LessTotal(a[1..], a[1..]);
    }
  }

  lemma AtMostTransitive(a: string, b: string, c: string)
    requires AtMost(a, b) && AtMost(b, c)
    ensures AtMost(a, c)
  {
    LessTotal(a, b);
    LessTotal(b, c);
    if Less(c, a) {
      if a == b || b == c {
      } else {
        LessTransitive(a, b, c);
        LessTotal(a, c);
      }
    }
  }

  lemma {:induction false} LeastExists(s: set<string>) returns (least: string)
    requires s != {}
    ensures least in s && forall o | o in s :: AtMost(least, o)
  {
    var n :| n in s;
    LessTotal(n, n);
    if s == {n} {
      least := n;
    } else {
      var m := LeastExists(s - {n});
      LessTotal(n, m);
      least := if Less(n, m) then n else m;
      forall o | o in s ensures AtMost(least, o) {
        if o != n {
          AtMostTransitive(least, m, o);
        }
      }
    }
  }

  ghost function Least(s: set<string>): (least: string)
    requires s != {}
    ensures least in s && forall o | o in s :: AtMost(least, o)
  {
    assert exists n :: n in s && forall o | o in s :: AtMost(n, o) by {
      var n := LeastExists(s);
    }
    var least :| least in s && forall o | o in s :: AtMost(least, o);
    least
  }

  lemma LeastUnique(s: set<string>, n: string)
    requires n in s && forall o | o in s :: AtMost(n, o)
    ensures Least(s) == n
  {
    LessTotal(n, Least(s));
  }
}
