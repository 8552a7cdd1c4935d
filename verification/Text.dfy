/** Go strings as sequences of Unicode scalar values: trimming, byte length and the
    byte-wise order, which for UTF-8 text is the order of the code points. */
module Text {

  /** The characters Go's unicode.IsSpace accepts. */
  predicate IsSpace(c: char) {
    var n := c as int;
    || 0x09 <= n <= 0x0D || n == 0x20 || n == 0x85 || n == 0xA0 || n == 0x1680
    || 0x2000 <= n <= 0x200A || n == 0x2028 || n == 0x2029 || n == 0x202F || n == 0x205F || n == 0x3000
  }

  /** The same characters one by one, as Unicode lists them. */
  const WHITE_SPACE: string :=
    "\t\n\U{000B}\U{000C}\r \U{0085}\U{00A0}\U{1680}\U{2000}\U{2001}\U{2002}\U{2003}" +
    "\U{2004}\U{2005}\U{2006}\U{2007}\U{2008}\U{2009}\U{200A}\U{2028}\U{2029}\U{202F}\U{205F}\U{3000}"

  lemma SpacesAreListed(c: char)
    ensures IsSpace(c) <==> c in WHITE_SPACE
  {
    if IsSpace(c) {
      var n := c as int;
      var i := if n <= 0x0D then n - 9 else if n == 0x20 then 5 else if n == 0x85 then 6 else if n == 0xA0 then 7
               else if n == 0x1680 then 8 else if n <= 0x200A then 9 + n - 0x2000 else if n == 0x2028 then 20
               else if n == 0x2029 then 21 else if n == 0x202F then 22 else if n == 0x205F then 23 else 24;
      assert |WHITE_SPACE| == 25 && WHITE_SPACE[i] == c;
    }
  }

  function TrimLeft(s: string): string {
    if s != [] && IsSpace(s[0]) then TrimLeft(s[1..]) else s
  }

  function TrimRight(s: string): string {
    if s != [] && IsSpace(s[|s| - 1]) then TrimRight(s[..|s| - 1]) else s
  }

  /** strings.TrimSpace */
  function TrimSpace(s: string): string {
    TrimRight(TrimLeft(s))
  }

  /** No white space at either end. */
  predicate Tight(s: string) {
    s == [] || (!IsSpace(s[0]) && !IsSpace(s[|s| - 1]))
  }

  lemma {:induction false} TrimLeftCuts(s: string) returns (n: nat)
    ensures n <= |s| && TrimLeft(s) == s[n..]
    ensures forall i :: 0 <= i < n ==> IsSpace(s[i])
    ensures n < |s| ==> !IsSpace(s[n])
  {
    n := 0;
    if s != [] && IsSpace(s[0]) {
      var m := TrimLeftCuts(s[1..]);
      n := m + 1;
      assert s[1..][m..] == s[n..];
      forall i | 0 <= i < n ensures IsSpace(s[i]) {
        if i > 0 { assert s[i] == s[1..][i - 1]; }
      }
    }
  }

  lemma {:induction false} TrimRightCuts(s: string) returns (n: nat)
    ensures n <= |s| && TrimRight(s) == s[..n]
    ensures forall i :: n <= i < |s| ==> IsSpace(s[i])
    ensures 0 < n ==> !IsSpace(s[n - 1])
  {
    n := |s|;
    if s != [] && IsSpace(s[|s| - 1]) {
      n := TrimRightCuts(s[..|s| - 1]);
      assert s[..|s| - 1][..n] == s[..n];
      forall i | n <= i < |s| ensures IsSpace(s[i]) {
        if i < |s| - 1 { assert s[i] == s[..|s| - 1][i]; }
      }
    } else {
      assert s[..n] == s;
    }
  }

  /** TrimSpace removes a white prefix and a white suffix, and all of them. */
  lemma TrimSpaceCuts(s: string) returns (lo: nat, hi: nat)
    ensures lo <= hi <= |s| && TrimSpace(s) == s[lo..hi]
    ensures forall i :: 0 <= i < lo || hi <= i < |s| ==> IsSpace(s[i])
    ensures Tight(TrimSpace(s))
  {
    lo := TrimLeftCuts(s);
    var n := TrimRightCuts(TrimLeft(s));
    hi := lo + n;
    assert s[lo..][..n] == s[lo..hi];
    forall i | hi <= i < |s| ensures IsSpace(s[i]) {
      assert s[i] == s[lo..][i - lo];
    }
  }

  /** Text that is already tight is left alone; in particular trimming twice is trimming once. */
  lemma TrimTight(s: string)
    ensures Tight(TrimSpace(s))
    ensures TrimSpace(s) == s <==> Tight(s)
    ensures TrimSpace(TrimSpace(s)) == TrimSpace(s)
  {
    var lo, hi := TrimSpaceCuts(s);
    assert Tight(TrimSpace(s));
    var t := TrimSpace(s);
    assert TrimLeft(t) == t && TrimRight(t) == t;
  }

  // ---------- length in bytes ----------

  function Utf8Size(c: char): nat {
    var n := c as int;
    if n < 0x80 then 1 else if n < 0x800 then 2 else if n < 0x10000 then 3 else 4
  }

  /** Go's len(s): the number of bytes of the UTF-8 encoding. */
  function ByteLen(s: string): nat {
    if s == [] then 0 else Utf8Size(s[0]) + ByteLen(s[1..])
  }

  /** The payload of one, two, three and four bytes of UTF-8 (section 3 of RFC 3629). */
  const UTF8_LIMITS: seq<int> := [0x80, 0x800, 0x10000, 0x110000]

  /** A character takes the fewest bytes whose payload holds it, and lengths add up. */
  lemma {:induction false} ByteLenMeans(s: string, c: char, t: string)
    ensures 1 <= ByteLen([c]) <= 4 && c as int < UTF8_LIMITS[ByteLen([c]) - 1]
    ensures ByteLen([c]) > 1 ==> UTF8_LIMITS[ByteLen([c]) - 2] <= c as int
    ensures ByteLen(s + [c] + t) == ByteLen(s) + ByteLen([c]) + ByteLen(t)
    ensures |s| <= ByteLen(s) <= 4 * |s|
  {
    assert [c][1..] == [];
    if s == [] {
      assert s + [c] + t == [c] + t && ([c] + t)[1..] == t;
    } else {
      ByteLenMeans(s[1..], c, t);
      assert (s + [c] + t)[1..] == s[1..] + [c] + t;
    }
  }

  // ---------- numbers ----------

  predicate AllDigits(s: string) {
    forall i :: 0 <= i < |s| ==> '0' <= s[i] <= '9'
  }

  function DigitsValue(s: string): nat
    requires AllDigits(s)
  {
    if s == [] then 0 else DigitsValue(s[..|s| - 1]) * 10 + (s[|s| - 1] as int - '0' as int)
  }

  function Digit(d: nat): char
    requires d < 10
  {
    ['0', '1', '2', '3', '4', '5', '6', '7', '8', '9'][d]
  }

  function Decimal(n: nat): string {
    if n < 10 then [Digit(n)] else Decimal(n / 10) + [Digit(n % 10)]
  }

  lemma DigitMeans(d: nat)
    requires d < 10
    ensures '0' <= Digit(d) <= '9' && Digit(d) as int - '0' as int == d
  {
  }

  /** The numeral of n is digits of value n without a leading zero. */
  lemma {:induction false} DecimalMeans(n: nat)
    ensures Decimal(n) != "" && AllDigits(Decimal(n)) && DigitsValue(Decimal(n)) == n
    ensures n > 0 ==> Decimal(n)[0] != '0'
  {
    DigitMeans(n % 10);
    var s := Decimal(n);
    if n < 10 {
      assert s[..|s| - 1] == [];
    } else {
      DecimalMeans(n / 10);
      assert s[..|s| - 1] == Decimal(n / 10);
    }
    hide Digit;
  }

  // ---------- order ----------

  /** Go's s < t on strings. */
  predicate Less(s: string, t: string) {
    t != [] && (s == [] || s[0] < t[0] || (s[0] == t[0] && Less(s[1..], t[1..])))
  }

  lemma {:induction false} LessIrreflexive(s: string)
    ensures !Less(s, s)
  {
    if s != [] { LessIrreflexive(s[1..]); }
  }

  lemma {:induction false} LessTransitive(s: string, t: string, u: string)
    requires Less(s, t) && Less(t, u)
    ensures Less(s, u)
  {
    if s != [] && s[0] == t[0] && t[0] == u[0] { LessTransitive(s[1..], t[1..], u[1..]); }
  }

  lemma {:induction false} LessTotal(s: string, t: string)
    ensures s == t || Less(s, t) || Less(t, s)
  {
    if s != [] && t != [] && s[0] == t[0] {
      LessTotal(s[1..], t[1..]);
      assert s == [s[0]] + s[1..] && t == [t[0]] + t[1..];
    }
  }

  /** The texts agree up to position i, where s has the smaller character. */
  predicate SmallerAt(s: string, t: string, i: int) {
    0 <= i < |s| && i < |t| && s[i] < t[i] && forall j :: 0 <= j < i ==> s[j] == t[j]
  }

  lemma SmallerInTail(s: string, t: string, i: int)
    requires s != [] && t != [] && s[0] == t[0]
    ensures SmallerAt(s, t, i) <==> SmallerAt(s[1..], t[1..], i - 1)
  {
    if SmallerAt(s[1..], t[1..], i - 1) {
      forall j | 0 <= j < i ensures s[j] == t[j] {
        if j > 0 { assert s[1..][j - 1] == t[1..][j - 1]; }
      }
    }
  }

  /** s comes before t: it is a proper prefix, or smaller where they first differ. */
  lemma {:induction false} LessMeans(s: string, t: string)
    ensures Less(s, t) <==> s < t || exists i :: SmallerAt(s, t, i)
  {
    if s != [] && t != [] && s[0] == t[0] {
      LessMeans(s[1..], t[1..]);
      assert s == [s[0]] + s[1..] && t == [t[0]] + t[1..];
      forall i { SmallerInTail(s, t, i); }
      hide SmallerAt;
      if i :| SmallerAt(s[1..], t[1..], i) { assert SmallerAt(s, t, i + 1) by { SmallerInTail(s, t, i + 1); } }
    } else if s != [] && t != [] && s[0] < t[0] {
      assert SmallerAt(s, t, 0);
    }
  }

  // ---------- patterns ----------

  predicate IsHex(s: string) {
    forall i :: 0 <= i < |s| ==> '0' <= s[i] <= '9' || 'a' <= s[i] <= 'f'
  }

  /** ^[0-9a-f]{40}$ */
  predicate IsFullGitRevision(s: string) {
    |s| == 40 && IsHex(s)
  }

  /** ^sha256:[0-9a-f]{64}$ */
  predicate IsSha256Digest(s: string) {
    |s| == 71 && "sha256:" <= s && IsHex(s[7..])
  }

  const HEX_DIGITS := "0123456789abcdef"

  /** n lower-case hexadecimal digits. */
  ghost predicate HexDigits(s: string, n: nat) {
    |s| == n && forall i :: 0 <= i < |s| ==> s[i] in HEX_DIGITS
  }

  lemma PatternsMean(s: string)
    ensures IsFullGitRevision(s) <==> HexDigits(s, 40)
    ensures IsSha256Digest(s) <==> exists h: string :: s == "sha256:" + h && HexDigits(h, 64)
  {
    forall t: string, i | 0 <= i < |t| ensures ('0' <= t[i] <= '9' || 'a' <= t[i] <= 'f') <==> t[i] in HEX_DIGITS {
      HexDigit(t[i]);
    }
    if IsSha256Digest(s) {
      assert s == "sha256:" + s[7..] && HexDigits(s[7..], 64);
    }
    if h: string :| s == "sha256:" + h && HexDigits(h, 64) {
      assert s[7..] == h;
    }
  }

  lemma HexDigit(c: char)
    ensures '0' <= c <= '9' || 'a' <= c <= 'f' <==> c in HEX_DIGITS
  {
    assert |HEX_DIGITS| == 16;
    if '0' <= c <= '9' { assert HEX_DIGITS[c as int - '0' as int] == c; }
    if 'a' <= c <= 'f' { assert HEX_DIGITS[10 + c as int - 'a' as int] == c; }
  }
}
