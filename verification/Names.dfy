/** Domain names as the services compare them: the trimming and lower-casing of
    internal/dnsbalancer/matching.go and the byte order that Go uses on strings. */
module Names {

  /** The characters that strings.TrimSpace removes. */
  predicate IsSpace(c: char) {
    || c in {'\t', '\n', '\r', ' '}
    || c as int in {0x0B, 0x0C, 0x85, 0xA0, 0x1680, 0x2028, 0x2029, 0x202F, 0x205F, 0x3000}
    || 0x2000 <= c as int <= 0x200A
  }

  function TrimLeft(s: string): string {
    if s != [] && IsSpace(s[0]) then TrimLeft(s[1..]) else s
  }

  function TrimRight(s: string): string {
    if s != [] && IsSpace(s[|s| - 1]) then TrimRight(s[..|s| - 1]) else s
  }

  function TrimSpace(s: string): string {
    TrimRight(TrimLeft(s))
  }

  /** strings.TrimSuffix(s, "."): at most one trailing dot goes. */
  function TrimDot(s: string): string {
    if s != [] && s[|s| - 1] == '.' then s[..|s| - 1] else s
  }

  function LowerChar(c: char): char {
    if 'A' <= c <= 'Z' then (c as int + 32) as char else c
  }

  function ToLower(s: string): (r: string)
    ensures |r| == |s|
  {
    if s == [] then [] else ToLower(s[..|s| - 1]) + [LowerChar(s[|s| - 1])]
  }

  function NormalizeFQDN(name: string): string {
    ToLower(TrimDot(TrimSpace(name)))
  }

  /** A trimmed name that a second trimming leaves alone. */
  predicate Settled(trimmed: string) {
    trimmed == [] || (trimmed[|trimmed| - 1] != '.' && !IsSpace(trimmed[|trimmed| - 1]))
  }

  lemma TrimLeftFirst(s: string)
    ensures var r := TrimLeft(s); r == [] || !IsSpace(r[0])
  {
  }

  lemma TrimRightEnds(s: string)
    ensures var r := TrimRight(s); r == [] || (!IsSpace(r[|r| - 1]) && s != [] && r[0] == s[0])
  {
  }

  lemma ToLowerAt(s: string, i: nat)
    requires i < |s|
    ensures ToLower(s)[i] == LowerChar(s[i])
  {
    if i < |s| - 1 {
      ToLowerAt(s[..|s| - 1], i);
    }
  }

  lemma ToLowerTwice(s: string)
    ensures ToLower(ToLower(s)) == ToLower(s)
  {
    var r := ToLower(s);
    forall i | 0 <= i < |r| ensures ToLower(r)[i] == r[i] {
      ToLowerAt(s, i);
      ToLowerAt(r, i);
    }
    assert |ToLower(r)| == |r|;
    assert ToLower(r) == r;
  }

  // ---- What normalising means ----

  ghost predicate AllSpaces(s: string) {
    forall k :: 0 <= k < |s| ==> IsSpace(s[k])
  }

  lemma {:induction false} TrimLeftCuts(s: string) returns (i: nat)
    ensures i <= |s| && TrimLeft(s) == s[i..] && AllSpaces(s[..i]) && (i < |s| ==> !IsSpace(s[i]))
  {
    i := 0;
    if s != [] && IsSpace(s[0]) {
      var j := TrimLeftCuts(s[1..]);
      i := j + 1;
      forall k | 0 <= k < i ensures IsSpace(s[k]) {
        if k > 0 {
          assert IsSpace(s[1..][..j][k - 1]);
        }
      }
    }
  }

  lemma {:induction false} TrimRightCuts(s: string) returns (j: nat)
    ensures j <= |s| && TrimRight(s) == s[..j] && AllSpaces(s[j..]) && (j > 0 ==> !IsSpace(s[j - 1]))
  {
    j := |s|;
    if s != [] && IsSpace(s[|s| - 1]) {
      var init := s[..|s| - 1];
      j := TrimRightCuts(init);
      forall k | 0 <= k < |s| - j ensures IsSpace(s[j..][k]) {
        if k < |s| - 1 - j {
          assert IsSpace(init[j..][k]);
        }
      }
    }
  }

  /** Spaces go at both ends, and nothing else. */
  lemma TrimSpaceMeans(s: string) returns (i: nat, j: nat)
    ensures i <= j <= |s| && TrimSpace(s) == s[i..j] && AllSpaces(s[..i]) && AllSpaces(s[j..])
    ensures i < j ==> !IsSpace(s[i]) && !IsSpace(s[j - 1])
  {
    i := TrimLeftCuts(s);
    var left := s[i..];
    var n := TrimRightCuts(left);
    j := i + n;
    assert left[..n] == s[i..j] && left[n..] == s[j..];
    if n > 0 {
      assert left[0] == s[i] && left[n - 1] == s[j - 1];
    }
  }

  predicate SameLetter(a: char, b: char) {
    || a == b
    || ('A' <= a <= 'Z' && b as int - a as int == 'a' as int - 'A' as int)
    || ('A' <= b <= 'Z' && a as int - b as int == 'a' as int - 'A' as int)
  }

  /** The same text but for the case of its ASCII letters. */
  ghost predicate SameText(a: string, b: string) {
    |a| == |b| && forall i :: 0 <= i < |a| ==> SameLetter(a[i], b[i])
  }

  lemma {:induction false} TrimLeftCase(a: string, b: string)
    requires SameText(a, b)
    ensures SameText(TrimLeft(a), TrimLeft(b))
  {
    if a != [] {
      assert SameLetter(a[0], b[0]);
      if IsSpace(a[0]) {
        TrimLeftCase(a[1..], b[1..]);
      }
    }
  }

  lemma {:induction false} TrimRightCase(a: string, b: string)
    requires SameText(a, b)
    ensures SameText(TrimRight(a), TrimRight(b))
  {
    if a != [] {
      assert SameLetter(a[|a| - 1], b[|b| - 1]);
      if IsSpace(a[|a| - 1]) {
        TrimRightCase(a[..|a| - 1], b[..|b| - 1]);
      }
    }
  }

  lemma {:induction false} LowerCase(a: string, b: string)
    requires SameText(a, b)
    ensures ToLower(a) == ToLower(b)
  {
    forall i | 0 <= i < |a| ensures ToLower(a)[i] == ToLower(b)[i] {
      ToLowerAt(a, i);
      ToLowerAt(b, i);
      assert SameLetter(a[i], b[i]);
    }
  }

  /** The case of the letters does not matter, and what comes out has no upper-case
      letter. */
  lemma CaseDoesNotMatter(a: string, b: string)
    requires SameText(a, b)
    ensures NormalizeFQDN(a) == NormalizeFQDN(b)
    ensures forall i :: 0 <= i < |NormalizeFQDN(a)| ==> !('A' <= NormalizeFQDN(a)[i] <= 'Z')
  {
    TrimLeftCase(a, b);
    TrimRightCase(TrimLeft(a), TrimLeft(b));
    var x, y := TrimSpace(a), TrimSpace(b);
    if x != [] {
      assert SameLetter(x[|x| - 1], y[|y| - 1]);
    }
    LowerCase(TrimDot(x), TrimDot(y));
    forall i | 0 <= i < |NormalizeFQDN(a)| ensures !('A' <= NormalizeFQDN(a)[i] <= 'Z') {
      ToLowerAt(TrimDot(x), i);
    }
  }

  /** Lower-casing changes nothing but the case, so that different texts stay different. */
  lemma LowerKeepsText(s: string)
    ensures SameText(ToLower(s), s)
  {
    forall i | 0 <= i < |s| ensures SameLetter(ToLower(s)[i], s[i]) {
      ToLowerAt(s, i);
    }
  }

  /** The key that AddIP, ReplaceIP and MoveIP lock is normalised once and the zone
      they patch is located by normalising that key again. The two agree exactly
      when what is left after one trimming ends in neither a dot nor a space. */
  lemma NormalizeIsSettled(name: string)
    ensures NormalizeFQDN(NormalizeFQDN(name)) == NormalizeFQDN(name)
            <==> Settled(TrimDot(TrimSpace(name)))
  {
    var y := TrimDot(TrimSpace(name));
    var key := NormalizeFQDN(name);
    if y == [] {
      assert key == [];
    } else {
      TrimLeftFirst(name);
      TrimRightEnds(TrimLeft(name));
      assert !IsSpace(y[0]);
      ToLowerAt(y, 0);
      ToLowerAt(y, |y| - 1);
      assert TrimLeft(key) == key;
      if Settled(y) {
        assert TrimRight(key) == key;
        assert TrimDot(key) == key;
        ToLowerTwice(y);
      } else if y[|y| - 1] == '.' {
        assert TrimRight(key) == key;
        assert |NormalizeFQDN(key)| == |key| - 1;
      } else {
        TrimRightShrinks(key);
        assert |NormalizeFQDN(key)| < |key|;
      }
    }
  }

  lemma TrimRightShrinks(s: string)
    requires s != [] && IsSpace(s[|s| - 1])
    ensures |TrimRight(s)| < |s|
  {
    TrimRightShorter(s[..|s| - 1]);
  }

  lemma TrimRightShorter(s: string)
    ensures |TrimRight(s)| <= |s|
  {
  }

  /** Two trailing dots are enough to make the lock key and the zone name differ. */
  lemma TwoDotsAreNotSettled()
    ensures NormalizeFQDN("a.b..") == "a.b." && NormalizeFQDN("a.b.") == "a.b"
  {
    var raw := "a.b..";
    assert TrimSpace(raw) == raw;
    assert TrimDot(raw) == "a.b.";
    LowerOf("a.b.");
    assert TrimSpace("a.b.") == "a.b.";
    assert TrimDot("a.b.") == "a.b";
    LowerOf("a.b");
  }

  lemma {:induction false} LowerOf(s: string)
    requires forall i :: 0 <= i < |s| ==> LowerChar(s[i]) == s[i]
    ensures ToLower(s) == s
  {
    if s != [] {
      LowerOf(s[..|s| - 1]);
      assert s == s[..|s| - 1] + [s[|s| - 1]];
    }
  }

  /** Go's `<` on strings. */
  predicate Less(a: string, b: string) {
    b != [] && (a == [] || a[0] < b[0] || (a[0] == b[0] && Less(a[1..], b[1..])))
  }

  /** At the first place where they differ, `a` ends or has the smaller character. */
  ghost predicate LessAt(a: string, b: string, k: int) {
    && 0 <= k <= |a| && k < |b| && a[..k] == b[..k]
    && (k < |a| ==> a[k] < b[k])
  }

  lemma {:induction false} LessMeans(a: string, b: string)
    ensures Less(a, b) <==> exists k :: LessAt(a, b, k)
  {
    if a != [] && b != [] && a[0] == b[0] {
      LessMeans(a[1..], b[1..]);
      if k :| LessAt(a[1..], b[1..], k) {
        assert a[..k + 1] == [a[0]] + a[1..][..k] && b[..k + 1] == [b[0]] + b[1..][..k];
        assert LessAt(a, b, k + 1);
      }
      if k :| LessAt(a, b, k) {
        assert k > 0;
        assert a[1..][..k - 1] == a[..k][1..] && b[1..][..k - 1] == b[..k][1..];
        assert LessAt(a[1..], b[1..], k - 1);
      }
    } else if b != [] {
      assert a == [] || a[0] < b[0] ==> LessAt(a, b, 0);
      forall k | LessAt(a, b, k) ensures k == 0 {
      }
    }
  }

  lemma LessIrreflexive(a: string)
    ensures !Less(a, a)
  {
  }

  lemma LessTransitive(a: string, b: string, c: string)
    requires Less(a, b) && Less(b, c)
    ensures Less(a, c)
  {
    if a != [] && a[0] == b[0] == c[0] {
      LessTransitive(a[1..], b[1..], c[1..]);
    }
  }

  lemma LessTotal(a: string, b: string)
    ensures a == b || Less(a, b) || Less(b, a)
  {
    if a != [] && b != [] && a[0] == b[0] {
      LessTotal(a[1..], b[1..]);
      assert a == [a[0]] + a[1..] && b == [b[0]] + b[1..];
    }
  }
}
