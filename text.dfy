/**
 * The few Python string operations the scripts rely on: str.replace with an
 * empty replacement, str.strip, list.index, and str ordering.
 */
module Text {
  import opened Wrappers

  /** s.replace(c, ''): every occurrence of c removed, the rest kept in order. */
  function RemoveAll(s: string, c: char): (r: string)
    ensures c !in r
    ensures |r| <= |s|
  {
    if s == [] then []
    else (if s[0] == c then [] else [s[0]]) + RemoveAll(s[1..], c)
  }

  lemma {:induction false} RemoveAllAppend(a: string, b: string, c: char)
    ensures RemoveAll(a + b, c) == RemoveAll(a, c) + RemoveAll(b, c)
  {
    if a == [] {
      assert a + b == b;
    } else {
      var head := if a[0] == c then [] else [a[0]];
      assert (a + b)[0] == a[0] && (a + b)[1..] == a[1..] + b;
      RemoveAllAppend(a[1..], b, c);
      calc {
        RemoveAll(a + b, c);
        head + RemoveAll(a[1..] + b, c);
        head + (RemoveAll(a[1..], c) + RemoveAll(b, c));
        (head + RemoveAll(a[1..], c)) + RemoveAll(b, c);
      }
    }
  }

  /** Removing c from a text split by one c joins the two sides. */
  lemma RemoveAllAround(a: string, b: string, c: char)
    ensures RemoveAll(a + [c] + b, c) == RemoveAll(a, c) + RemoveAll(b, c)
  {
    var left := a + [c];
    assert a + [c] + b == left + b;
    RemoveAllAppend(left, b, c);
    RemoveAllAppend(a, [c], c);
    assert [c][1..] == [];
    assert RemoveAll([c], c) == [];
    assert RemoveAll(left, c) == RemoveAll(a, c);
  }

  /** Removing a character that does not occur changes nothing. */
  lemma {:induction false} RemoveAllAbsent(s: string, c: char)
    requires c !in s
    ensures RemoveAll(s, c) == s
  {
    if s != [] {
      assert s[0] != c;
      assert c !in s[1..];
      RemoveAllAbsent(s[1..], c);
    }
  }

  /** Removing twice is removing once. */
  lemma RemoveAllIdempotent(s: string, c: char)
    ensures RemoveAll(RemoveAll(s, c), c) == RemoveAll(s, c)
  {
    RemoveAllAbsent(RemoveAll(s, c), c);
  }

  /**
   * A date with its hyphens removed: the key of the daily totals and the
   * TX_DATE request parameter of the Shanghai fetcher.
   */
  function Unhyphenate(date: string): (r: string)
    ensures '-' !in r
    ensures |r| <= |date|
  {
    RemoveAll(date, '-')
  }

  /** YYYY-MM-DD becomes YYYYMMDD: a hyphenated date loses exactly its two separators. */
  lemma RemoveHyphens(y: string, m: string, d: string)
    requires '-' !in y && '-' !in m && '-' !in d
    ensures Unhyphenate(y + "-" + m + "-" + d) == y + m + d
  {
    RemoveAllAround(y + "-" + m, d, '-');
    RemoveAllAround(y, m, '-');
    RemoveAllAbsent(y, '-');
    RemoveAllAbsent(m, '-');
    RemoveAllAbsent(d, '-');
  }

  /** The characters Python's str.isspace accepts. */
  predicate IsSpace(ch: char)
  {
    ch == ' ' || ('\t' <= ch <= '\r') || ('\U{1C}' <= ch <= '\U{1F}') ||
    ch == '\U{85}' || ch == '\U{A0}' || ch == '\U{1680}' ||
    ('\U{2000}' <= ch <= '\U{200A}') || ch == '\U{2028}' || ch == '\U{2029}' ||
    ch == '\U{202F}' || ch == '\U{205F}' || ch == '\U{3000}'
  }

  /** The number of whitespace characters s starts with. */
  function LeadingSpaces(s: string): (i: nat)
    ensures i <= |s|
    ensures forall p {:trigger s[p]} :: 0 <= p < i ==> IsSpace(s[p])
    ensures i < |s| ==> !IsSpace(s[i])
  {
    if s != [] && IsSpace(s[0]) then
      var i := LeadingSpaces(s[1..]);
      assert forall p :: 1 <= p < i + 1 ==> s[p] == s[1..][p - 1];
      1 + i
    else 0
  }

  /** The length of s without its trailing whitespace. */
  function TextEnd(s: string): (j: nat)
    ensures j <= |s|
    ensures forall p {:trigger s[p]} :: j <= p < |s| ==> IsSpace(s[p])
    ensures j > 0 ==> !IsSpace(s[j - 1])
  {
    if s != [] && IsSpace(s[|s| - 1]) then
      var j := TextEnd(s[..|s| - 1]);
      assert forall p :: j <= p < |s| - 1 ==> s[p] == s[..|s| - 1][p];
      j
    else |s|
  }

  /**
   * str.strip(): the slice of s that follows its leading whitespace, neither
   * starts nor ends with whitespace and is followed by whitespace only; empty
   * exactly when s is all whitespace.
   */
  function Strip(s: string): (r: string)
    ensures r == [] <==> forall p :: 0 <= p < |s| ==> IsSpace(s[p])
    ensures r != [] ==> !IsSpace(r[0]) && !IsSpace(r[|r| - 1])
    ensures var i := LeadingSpaces(s);
      i + |r| <= |s| && r == s[i..i + |r|] && forall p :: i + |r| <= p < |s| ==> IsSpace(s[p])
  {
    var i, j := LeadingSpaces(s), TextEnd(s);
    if i == |s| then
      assert s[|s|..|s|] == [];
      []
    else
      assert !IsSpace(s[i]);
      assert i < j;
      s[i..j]
  }

  /** Stripping never introduces a character. */
  lemma StripKeepsAbsent(s: string, c: char)
    requires c !in s
    ensures c !in Strip(s)
  {
  }

  /** list.index(x): the first position holding x, None where Python raises ValueError. */
  function IndexOf(s: seq<string>, x: string): (r: Option<nat>)
    ensures r.None? <==> x !in s
    ensures r.Some? ==> r.value < |s| && s[r.value] == x && forall j :: 0 <= j < r.value ==> s[j] != x
  {
    if s == [] then None
    else if s[0] == x then Some(0)
    else match IndexOf(s[1..], x)
      case None => None
      case Some(i) => Some(i + 1)
  }

  /** s.find(c): the first position of c, or -1. */
  function Find(s: string, c: char): (i: int)
    ensures -1 <= i < |s|
    ensures i == -1 <==> c !in s
    ensures i >= 0 ==> s[i] == c && c !in s[..i]
  {
    if s == [] then -1
    else if s[0] == c then 0
    else
      var i := Find(s[1..], c);
      assert s[1..][..i + 1] == s[1..i + 2] || i == -1;
      if i == -1 then -1 else i + 1
  }

  /** s.rfind(c): the last position of c, or -1. */
  function RFind(s: string, c: char): (i: int)
    ensures -1 <= i < |s|
    ensures i == -1 <==> c !in s
    ensures i >= 0 ==> s[i] == c && c !in s[i + 1..]
  {
    if s == [] then -1
    else if s[|s| - 1] == c then |s| - 1
    else
      var t := s[..|s| - 1];
      var i := RFind(t, c);
      assert s == t + [s[|s| - 1]];
      assert i >= 0 ==> s[i + 1..] == t[i + 1..] + [s[|s| - 1]];
      i
  }

  /** A position holding c with no c before it is what find answers. */
  lemma {:induction false} FindAt(s: string, c: char, k: nat)
    requires k < |s| && s[k] == c && c !in s[..k]
    ensures Find(s, c) == k
  {
    if k > 0 {
      assert s[..k][0] == s[0];
      assert s[1..][..k - 1] == s[1..k];
      assert s[1..k] == s[..k][1..];
      FindAt(s[1..], c, k - 1);
    }
  }

  /** A position holding c with no c after it is what rfind answers. */
  lemma {:induction false} RFindAt(s: string, c: char, k: nat)
    requires k < |s| && s[k] == c && c !in s[k + 1..]
    ensures RFind(s, c) == k
  {
    if k < |s| - 1 {
      var t := s[..|s| - 1];
      assert s[k + 1..] == t[k + 1..] + [s[|s| - 1]];
      RFindAt(t, c, k);
    }
  }

  /** Where the pieces of a + [l] + b + [r] + c sit. */
  lemma BracketPieces(a: string, l: char, b: string, r: char, c: string)
    ensures var s, close := a + [l] + b + [r] + c, |a| + 1 + |b|;
      s[|a|] == l && s[..|a|] == a && s[close] == r && s[close + 1..] == c && s[|a| + 1..close] == b
  {
    var s, close := a + [l] + b + [r] + c, |a| + 1 + |b|;
    assert s[|a|] == l && s[..|a|] == a;
    assert s[close] == r && s[close + 1..] == c;
    assert s[|a| + 1..close] == b;
  }

  /** In a + [l] + b + [r] + c with no l in a and no r in c, find and rfind land on the brackets around b. */
  lemma FindBrackets(a: string, l: char, b: string, r: char, c: string)
    requires l !in a && r !in c
    ensures Find(a + [l] + b + [r] + c, l) == |a|
    ensures RFind(a + [l] + b + [r] + c, r) == |a| + 1 + |b|
    ensures (a + [l] + b + [r] + c)[|a| + 1..|a| + 1 + |b|] == b
  {
    BracketPieces(a, l, b, r, c);
    FindAt(a + [l] + b + [r] + c, l, |a|);
    RFindAt(a + [l] + b + [r] + c, r, |a| + 1 + |b|);
  }

  /** How a slice bound is normalised: negative counts from the end, then clamped to the string. */
  function SliceBound(n: nat, i: int): (r: nat)
    ensures r <= n
    ensures 0 <= i <= n ==> r == i
    ensures i < 0 && i + n >= 0 ==> r == n + i
    ensures i > n ==> r == n
    ensures i + n < 0 ==> r == 0
  {
    if i < 0 then (if i + n < 0 then 0 else i + n)
    else if i > n then n
    else i
  }

  /** s[start:stop] with Python's slice semantics; empty when the bounds cross. */
  function PySlice(s: string, start: int, stop: int): (r: string)
    ensures SliceBound(|s|, start) < SliceBound(|s|, stop) ==> r == s[SliceBound(|s|, start)..SliceBound(|s|, stop)]
    ensures SliceBound(|s|, start) >= SliceBound(|s|, stop) ==> r == []
  {
    var a, b := SliceBound(|s|, start), SliceBound(|s|, stop);
    if a < b then s[a..b] else []
  }

  /** Python's ordering of str: code point by code point, a proper prefix first. */
  predicate LexLess(a: string, b: string)
  {
    if a == [] then b != []
    else if b == [] then false
    else if a[0] != b[0] then a[0] < b[0]
    else LexLess(a[1..], b[1..])
  }

  lemma {:induction false} LexIrreflexive(a: string)
    ensures !LexLess(a, a)
  {
    if a != [] {
      LexIrreflexive(a[1..]);
    }
  }

  lemma {:induction false} LexTransitive(a: string, b: string, c: string)
    requires LexLess(a, b) && LexLess(b, c)
    ensures LexLess(a, c)
  {
    if a != [] && b != [] && c != [] && a[0] == b[0] && b[0] == c[0] {
      LexTransitive(a[1..], b[1..], c[1..]);
    }
  }

  lemma {:induction false} LexTotal(a: string, b: string)
    requires a != b
    ensures LexLess(a, b) || LexLess(b, a)
  {
    if a != [] && b != [] && a[0] == b[0] {
      assert a == [a[0]] + a[1..] && b == [b[0]] + b[1..];
      LexTotal(a[1..], b[1..]);
    }
  }

  lemma LexAsymmetric(a: string, b: string)
    requires LexLess(a, b)
    ensures !LexLess(b, a)
  {
    if LexLess(b, a) {
      LexTransitive(a, b, a);
      LexIrreflexive(a);
    }
  }

  /** Every non-empty finite set of strings has a least element. */
  lemma {:induction false} LeastExists(keys: set<string>)
    requires keys != {}
    ensures exists m :: m in keys && forall y :: y in keys && y != m ==> LexLess(m, y)
    decreases |keys|
  {
    var x :| x in keys;
    var rest := keys - {x};
    if rest == {} {
      forall y | y in keys ensures y == x {
        assert y !in rest;
      }
      assert x in keys;
    } else {
      LeastExists(rest);
      var m :| m in rest && forall y :: y in rest && y != m ==> LexLess(m, y);
      if LexLess(x, m) {
        forall y | y in keys && y != x ensures LexLess(x, y) {
          assert y in rest;
          if y != m {
            LexTransitive(x, m, y);
          }
        }
        assert x in keys;
      } else {
        LexTotal(x, m);
        forall y | y in keys && y != m ensures LexLess(m, y) {
          if y != x {
            assert y in rest;
          }
        }
        assert m in keys;
      }
    }
  }
}
