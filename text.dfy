/**
 * Character classes and string operations shared by every parser of the model:
 * the ECMAScript `\s` class, `String.prototype.trim`, `replace(/\s+/g, ' ')`,
 * `toLowerCase`/`toUpperCase` restricted to ASCII and Latin-1 letters, decimal
 * digits, `padStart`, `includes` and `join`.
 */
module Text {
  import opened Wrappers

  predicate IsDigit(c: char) { '0' <= c <= '9' }

  /** The section sign of Norwegian statute citations. */
  const SectionSign := "§"

  /** ECMAScript WhiteSpace and LineTerminator code points: the class `\s` and what `trim` removes. */
  predicate IsSpace(c: char) {
    c == ' ' || c == '\t' || c == '\n' || c == '\r' || c == '\U{B}' || c == '\U{C}'
    || c == '\U{A0}' || c == '\U{1680}' || ('\U{2000}' <= c <= '\U{200A}')
    || c == '\U{2028}' || c == '\U{2029}' || c == '\U{202F}' || c == '\U{205F}'
    || c == '\U{3000}' || c == '\U{FEFF}'
  }

  /** The characters `.` does not match (no `s` flag). */
  predicate IsLineTerminator(c: char) { c == '\n' || c == '\r' || c == '\U{2028}' || c == '\U{2029}' }

  predicate IsAsciiLower(c: char) { 'a' <= c <= 'z' }
  predicate IsAsciiUpper(c: char) { 'A' <= c <= 'Z' }
  predicate IsAsciiLetter(c: char) { IsAsciiLower(c) || IsAsciiUpper(c) }
  predicate IsAsciiAlnum(c: char) { IsAsciiLetter(c) || IsDigit(c) }
  /** `\w` */
  predicate IsWordChar(c: char) { IsAsciiAlnum(c) || c == '_' }

  /** Latin-1 letters that `toLowerCase`/`toUpperCase` shift by 0x20 (À..Þ without ×, à..þ without ÷). */
  predicate IsLatin1Upper(c: char) { '\U{C0}' <= c <= '\U{DE}' && c != '\U{D7}' }
  predicate IsLatin1Lower(c: char) { '\U{E0}' <= c <= '\U{FE}' && c != '\U{F7}' }

  function ToLowerChar(c: char): char {
    if IsAsciiUpper(c) || IsLatin1Upper(c) then (c as int + 32) as char else c
  }

  function ToUpperChar(c: char): char {
    if IsAsciiLower(c) || IsLatin1Lower(c) then (c as int - 32) as char else c
  }

  function Lower(s: string): (r: string)
    ensures |r| == |s|
  {
    seq(|s|, i requires 0 <= i < |s| => ToLowerChar(s[i]))
  }

  function Upper(s: string): (r: string)
    ensures |r| == |s|
  {
    seq(|s|, i requires 0 <= i < |s| => ToUpperChar(s[i]))
  }

  /** JavaScript truthiness of a `string | undefined`. */
  predicate Truthy(o: Option<string>) { o.Some? && o.value != "" }

  predicate AllSpace(s: string) { forall i :: 0 <= i < |s| ==> IsSpace(s[i]) }
  predicate NoSpace(s: string) { forall i :: 0 <= i < |s| ==> !IsSpace(s[i]) }
  predicate AllDigits(s: string) { forall i :: 0 <= i < |s| ==> IsDigit(s[i]) }
  predicate NoLineTerminator(s: string) { forall i :: 0 <= i < |s| ==> !IsLineTerminator(s[i]) }

  /** `\d{n}` at `i`. */
  predicate DigitsAt(s: string, i: nat, n: nat) {
    i + n <= |s| && forall k :: i <= k < i + n ==> IsDigit(s[k])
  }

  predicate CharAt(s: string, i: nat, c: char) { i < |s| && s[i] == c }

  /** End of the run of `\s` characters that starts at `i`. */
  function SpaceRun(s: string, i: nat): (e: nat)
    requires i <= |s|
    ensures i <= e <= |s|
    ensures forall k :: i <= k < e ==> IsSpace(s[k])
    ensures e < |s| ==> !IsSpace(s[e])
    decreases |s| - i
  {
    if i < |s| && IsSpace(s[i]) then SpaceRun(s, i + 1) else i
  }

  /** End of the run of decimal digits that starts at `i`. */
  function DigitRun(s: string, i: nat): (e: nat)
    requires i <= |s|
    ensures i <= e <= |s|
    ensures forall k :: i <= k < e ==> IsDigit(s[k])
    ensures e < |s| ==> !IsDigit(s[e])
    decreases |s| - i
  {
    if i < |s| && IsDigit(s[i]) then DigitRun(s, i + 1) else i
  }

  /** End of the run of characters satisfying `p` that starts at `i`. */
  function Span(s: string, i: nat, p: char -> bool): (e: nat)
    requires i <= |s|
    ensures i <= e <= |s|
    ensures forall k :: i <= k < e ==> p(s[k])
    ensures e < |s| ==> !p(s[e])
    decreases |s| - i
  {
    if i < |s| && p(s[i]) then Span(s, i + 1, p) else i
  }

  /** Start of the run of `\s` characters that ends just before `j`. */
  function SpaceRunBack(s: string, j: nat): (b: nat)
    requires j <= |s|
    ensures b <= j
    ensures forall k :: b <= k < j ==> IsSpace(s[k])
    ensures b > 0 ==> !IsSpace(s[b - 1])
    decreases j
  {
    if j > 0 && IsSpace(s[j - 1]) then SpaceRunBack(s, j - 1) else j
  }

  /** `String.prototype.trim` */
  function Trim(s: string): (r: string)
    ensures r == [] || (!IsSpace(r[0]) && !IsSpace(r[|r| - 1]))
    ensures r == [] <==> AllSpace(s)
    ensures |r| <= |s|
  {
    var a := SpaceRun(s, 0);
    var b := SpaceRunBack(s, |s|);
    if b <= a then
      []
    else
      assert !IsSpace(s[a]);
      s[a..b]
  }

  /** Trimming changes nothing when neither end is whitespace. */
  lemma TrimKeepsTrimmed(s: string)
    requires s != [] && !IsSpace(s[0]) && !IsSpace(s[|s| - 1])
    ensures Trim(s) == s
  {
    SpaceRunExact(s, 0, 0);
    assert SpaceRunBack(s, |s|) == |s|;
    assert s[0..|s|] == s;
  }

  /** `replace(/\s+/g, ' ')`: every maximal run of `\s` becomes one space. */
  function Collapse(s: string): (r: string)
    ensures forall i :: 0 <= i < |r| ==> (IsSpace(r[i]) ==> r[i] == ' ')
    ensures forall i :: 0 <= i < |r| - 1 ==> !(IsSpace(r[i]) && IsSpace(r[i + 1]))
    ensures |r| > 0 <==> |s| > 0
    ensures |r| > 0 ==> (IsSpace(r[0]) <==> IsSpace(s[0]))
    decreases |s|
  {
    if s == [] then []
    else if IsSpace(s[0]) then [' '] + Collapse(s[SpaceRun(s, 0)..])
    else [s[0]] + Collapse(s[1..])
  }

  /** Collapsing keeps a string all-whitespace exactly when it was. */
  lemma CollapseAllSpace(s: string)
    ensures AllSpace(Collapse(s)) <==> AllSpace(s)
    decreases |s|
  {
    if s != [] {
      var r := Collapse(s);
      if IsSpace(s[0]) {
        var e := SpaceRun(s, 0);
        if e < |s| {
          var rest := Collapse(s[e..]);
          assert r == [' '] + rest && r[1] == rest[0];
        }
      } else {
        assert !IsSpace(r[0]);
      }
    }
  }

  /** A non-space character absent from `s` is absent from `Collapse(s)`. */
  lemma {:induction false} CollapseKeepsAbsent(s: string, c: char)
    requires !IsSpace(c) && c !in s
    ensures c !in Collapse(s)
    decreases |s|
  {
    if s != [] {
      if IsSpace(s[0]) {
        var e := SpaceRun(s, 0);
        CollapseKeepsAbsent(s[e..], c);
      } else {
        CollapseKeepsAbsent(s[1..], c);
      }
    }
  }

  /** A run end is determined by its contents: the lemma form of `SpaceRun`'s contract. */
  lemma SpaceRunExact(s: string, i: nat, e: nat)
    requires i <= e <= |s|
    requires forall k :: i <= k < e ==> IsSpace(s[k])
    requires e == |s| || !IsSpace(s[e])
    ensures SpaceRun(s, i) == e
  {
  }

  lemma DigitRunExact(s: string, i: nat, e: nat)
    requires i <= e <= |s|
    requires forall k :: i <= k < e ==> IsDigit(s[k])
    requires e == |s| || !IsDigit(s[e])
    ensures DigitRun(s, i) == e
  {
  }

  lemma SpanExact(s: string, i: nat, e: nat, p: char -> bool)
    requires i <= e <= |s|
    requires forall k :: i <= k < e ==> p(s[k])
    requires e == |s| || !p(s[e])
    ensures Span(s, i, p) == e
  {
  }

  /** Length in UTF-16 code units, what JavaScript's `length` counts. */
  function Utf16Length(s: string): (n: nat)
    ensures |s| <= n <= 2 * |s|
    decreases |s|
  {
    if s == [] then 0
    else Utf16Length(s[..|s| - 1]) + (if s[|s| - 1] as int >= 0x1_0000 then 2 else 1)
  }

  /** Collapsing leaves a prefix without whitespace in place. */
  lemma {:induction false} CollapseNoSpacePrefix(p: string, q: string)
    requires NoSpace(p)
    ensures Collapse(p + q) == p + Collapse(q)
    decreases |p|
  {
    if p != [] {
      var s := p + q;
      assert s[0] == p[0] && !IsSpace(s[0]);
      assert s[1..] == p[1..] + q;
      CollapseNoSpacePrefix(p[1..], q);
      assert Collapse(s) == [s[0]] + Collapse(s[1..]);
      assert p == [p[0]] + p[1..];
    } else {
      assert p + q == q;
    }
  }

  /** A leading run of whitespace collapses to one space. */
  lemma CollapseSpacePrefix(w: string, q: string)
    requires |w| > 0 && AllSpace(w)
    requires q == [] || !IsSpace(q[0])
    ensures Collapse(w + q) == [' '] + Collapse(q)
  {
    var s := w + q;
    SpaceRunExact(s, 0, |w|);
    assert s[|w|..] == q;
  }

  /** Every whitespace character is a space, and no two whitespace characters are adjacent. */
  predicate SingleSpaced(s: string) {
    && (forall i :: 0 <= i < |s| ==> (IsSpace(s[i]) ==> s[i] == ' '))
    && (forall i :: 0 <= i < |s| - 1 ==> !(IsSpace(s[i]) && IsSpace(s[i + 1])))
  }

  /** A string as `replace(/\s+/g, ' ').trim()` leaves it: single inner spaces, none at the ends. */
  predicate IsNormalized(s: string) {
    && (s == [] || (!IsSpace(s[0]) && !IsSpace(s[|s| - 1])))
    && SingleSpaced(s)
  }

  /** Trimming keeps a string single-spaced. */
  lemma TrimSingleSpaced(c: string)
    requires SingleSpaced(c)
    ensures SingleSpaced(Trim(c))
  {
    var r := Trim(c);
    if r != [] {
      var a := SpaceRun(c, 0);
      var b := SpaceRunBack(c, |c|);
      assert r == c[a..b];
      forall i | 0 <= i < |r| - 1 ensures !(IsSpace(r[i]) && IsSpace(r[i + 1])) {
        assert r[i] == c[a + i] && r[i + 1] == c[a + i + 1];
      }
      forall i | 0 <= i < |r| ensures IsSpace(r[i]) ==> r[i] == ' ' {
        assert r[i] == c[a + i];
      }
    }
  }

  /** `replace(/\s+/g, ' ').trim()`, the source's `normalizeWhitespace`. */
  function Normalize(s: string): (r: string)
    ensures IsNormalized(r)
    ensures r == [] <==> AllSpace(s)
  {
    CollapseAllSpace(s);
    TrimSingleSpaced(Collapse(s));
    Trim(Collapse(s))
  }

  lemma {:induction false} CollapseOfNormalized(s: string)
    requires forall i :: 0 <= i < |s| ==> (IsSpace(s[i]) ==> s[i] == ' ')
    requires forall i :: 0 <= i < |s| - 1 ==> !(IsSpace(s[i]) && IsSpace(s[i + 1]))
    ensures Collapse(s) == s
    decreases |s|
  {
    if s != [] {
      if IsSpace(s[0]) {
        assert SpaceRun(s, 0) == 1 by {
          if |s| > 1 { assert !IsSpace(s[1]); }
        }
        CollapseOfNormalized(s[1..]);
      } else {
        CollapseOfNormalized(s[1..]);
      }
    }
  }

  /** Normalising is idempotent. */
  lemma NormalizeIdempotent(s: string)
    requires IsNormalized(s)
    ensures Normalize(s) == s
  {
    CollapseOfNormalized(s);
    if s != [] {
      assert SpaceRun(s, 0) == 0;
      assert SpaceRunBack(s, |s|) == |s|;
    }
  }

  function DigitValue(c: char): nat
    requires IsDigit(c)
  {
    c as int - '0' as int
  }

  function DigitChar(d: nat): (c: char)
    requires d < 10
    ensures IsDigit(c) && DigitValue(c) == d
  {
    ('0' as int + d) as char
  }

  /** `Number.parseInt(digits, 10)` of a non-empty run of decimal digits. */
  function ParseNat(s: string): nat
    requires AllDigits(s)
    decreases |s|
  {
    if s == [] then 0 else 10 * ParseNat(s[..|s| - 1]) + DigitValue(s[|s| - 1])
  }

  /** Decimal rendering of a non-negative integer, as template literals print it. */
  function NatToString(n: nat): (r: string)
    ensures |r| > 0 && AllDigits(r)
    ensures ParseNat(r) == n
    ensures r[0] == '0' ==> r == "0"
    decreases n
  {
    if n < 10 then [DigitChar(n)]
    else
      var p := NatToString(n / 10);
      var r := p + [DigitChar(n % 10)];
      assert r[..|r| - 1] == p;
      r
  }

  /** `s.padStart(width, [c])` */
  function PadStart(s: string, width: nat, c: char): (r: string)
    ensures |r| == if |s| >= width then |s| else width
    ensures r[|r| - |s|..] == s
    ensures forall i :: 0 <= i < |r| - |s| ==> r[i] == c
  {
    if |s| >= width then s else seq(width - |s|, _ => c) + s
  }

  /** `lit` occurs in `s` at index `i`. */
  predicate LitAt(s: string, i: nat, lit: string) {
    i + |lit| <= |s| && s[i..i + |lit|] == lit
  }

  /** `lit` (given in lower case) occurs at `i` up to case, as a regular expression with the `i` flag matches it. */
  predicate LitAtCI(s: string, i: nat, lit: string) {
    i + |lit| <= |s| && forall k :: 0 <= k < |lit| ==> ToLowerChar(s[i + k]) == lit[k]
  }

  /** `/lit/i.test(s)` for a lower-case literal: the literal occurs somewhere, up to case. */
  predicate ContainsCI(s: string, lit: string) {
    exists k: nat :: k <= |s| && LitAtCI(s, k, lit)
  }

  predicate StartsWith(s: string, p: string) { LitAt(s, 0, p) }

  /** First index at or after `from` where `p` occurs in `s`. */
  function IndexOf(s: string, p: string, from: nat): (r: Option<nat>)
    ensures r.Some? ==> from <= r.value && LitAt(s, r.value, p)
    ensures r.Some? ==> forall k :: from <= k < r.value ==> !LitAt(s, k, p)
    ensures r.None? ==> forall k :: from <= k ==> !LitAt(s, k, p)
    decreases |s| + 1 - from
  {
    if from + |p| > |s| then None
    else if LitAt(s, from, p) then Some(from)
    else IndexOf(s, p, from + 1)
  }

  /** `s.includes(p)` */
  predicate Contains(s: string, p: string) {
    IndexOf(s, p, 0).Some?
  }

  lemma ContainsAt(s: string, p: string, i: nat)
    requires LitAt(s, i, p)
    ensures Contains(s, p)
  {
  }

  /** `parts.join(sep)` */
  function Join(parts: seq<string>, sep: string): string
    decreases |parts|
  {
    if |parts| == 0 then ""
    else if |parts| == 1 then parts[0]
    else parts[0] + sep + Join(parts[1..], sep)
  }

  lemma NoSpaceDigits(s: string)
    requires AllDigits(s)
    ensures NoSpace(s)
  {
    forall k | 0 <= k < |s| ensures !IsSpace(s[k]) { assert IsDigit(s[k]); }
  }

  /** Collapsing digits, whitespace and at most one letter. */
  lemma CollapseGroupParts(digits: string, ws: string, letter: string)
    requires AllDigits(digits) && AllSpace(ws)
    requires |letter| <= 1 && (|letter| == 1 ==> IsAsciiLetter(letter[0]))
    ensures Collapse(digits + ws + letter) == digits + (if ws == [] then "" else " ") + letter
  {
    NoSpaceDigits(digits);
    assert digits + ws + letter == digits + (ws + letter);
    CollapseNoSpacePrefix(digits, ws + letter);
    CollapseNoSpacePrefix(letter, []);
    assert letter + [] == letter;
    if ws == [] {
      assert ws + letter == letter;
    } else {
      CollapseSpacePrefix(ws, letter);
    }
  }

  /** Trimming digits, an optional space and at most one letter. */
  lemma TrimGroupParts(digits: string, sep: string, letter: string)
    requires |digits| > 0 && AllDigits(digits) && (sep == "" || sep == " ")
    requires |letter| <= 1 && (|letter| == 1 ==> IsAsciiLetter(letter[0]))
    ensures Trim(digits + sep + letter) == if letter == [] then digits else digits + sep + letter
  {
    var c := digits + sep + letter;
    assert !IsSpace(c[0]) by { assert c[0] == digits[0]; }
    SpaceRunExact(c, 0, 0);
    if letter == [] && sep != "" {
      assert !IsSpace(c[|digits| - 1]) by { assert c[|digits| - 1] == digits[|digits| - 1]; }
      assert SpaceRunBack(c, |c|) == |digits|;
      assert c[0..|digits|] == digits;
    } else if letter == [] {
      assert c == digits;
      assert !IsSpace(c[|c| - 1]) by { assert IsDigit(c[|c| - 1]); }
      assert c[0..|c|] == c;
    } else {
      assert !IsSpace(c[|c| - 1]);
      assert c[0..|c|] == c;
    }
  }

  /** `normalize` of digits, whitespace and at most one letter. */
  lemma NormalizeGroupParts(D: string, W: string, L: string)
    requires |D| > 0 && AllDigits(D) && AllSpace(W)
    requires |L| <= 1 && (|L| == 1 ==> IsAsciiLetter(L[0]))
    ensures Normalize(D + W + L) == if L == [] then D else D + (if W == [] then "" else " ") + L
  {
    var sep := if W == [] then "" else " ";
    var c := D + sep + L;
    CollapseGroupParts(D, W, L);
    assert Collapse(D + W + L) == c;
    TrimGroupParts(D, sep, L);
  }

  /** A literal found at `i` has its `j`-th character at `i + j`. */
  lemma LitAtChar(s: string, i: nat, lit: string, j: nat)
    requires j < |lit|
    ensures LitAt(s, i, lit) ==> s[i + j] == lit[j]
  {
    if LitAt(s, i, lit) {
      assert s[i + j] == s[i..i + |lit|][j];
    }
  }

  lemma NotLitAtCI(s: string, i: nat, lit: string)
    requires |lit| > 0 && (i >= |s| || ToLowerChar(s[i]) != lit[0])
    ensures !LitAtCI(s, i, lit)
  {
    if i < |s| {
      assert ToLowerChar(s[i + 0]) != lit[0];
    }
  }

  /** Upper-casing a character keeps its lower-case form. */
  lemma UpperCharKeepsLower(c: char)
    ensures ToLowerChar(ToUpperChar(c)) == ToLowerChar(c) && ToUpperChar(ToUpperChar(c)) == ToUpperChar(c)
    ensures IsDigit(ToUpperChar(c)) == IsDigit(c) && IsAsciiAlnum(ToUpperChar(c)) == IsAsciiAlnum(c)
    ensures (ToUpperChar(c) == c <==> !(IsAsciiLower(c) || IsLatin1Lower(c)))
  {
  }

  /** Upper-casing is idempotent. */
  lemma UpperIdempotent(s: string)
    ensures Upper(Upper(s)) == Upper(s)
  {
    forall i | 0 <= i < |s| ensures Upper(Upper(s))[i] == Upper(s)[i] {
      UpperCharKeepsLower(s[i]);
    }
  }

  /** A string with no lower-case letter is its own upper-case form. */
  lemma UpperOfNoLower(s: string)
    requires forall k :: 0 <= k < |s| ==> !IsAsciiLower(s[k]) && !IsLatin1Lower(s[k])
    ensures Upper(s) == s
  {
  }

  /** A string that begins with `b` agrees with `b` on every slice inside it. */
  lemma PrefixSlices(c: string, b: string)
    requires |b| <= |c| && c[..|b|] == b
    ensures forall i, j :: 0 <= i <= j <= |b| ==> c[i..j] == b[i..j]
    ensures forall k :: 0 <= k < |b| ==> c[k] == b[k]
  {
    forall k | 0 <= k < |b| ensures c[k] == b[k] {
      assert c[..|b|][k] == c[k];
    }
    forall i, j | 0 <= i <= j <= |b| ensures c[i..j] == b[i..j] {
      assert |c[i..j]| == |b[i..j]|;
      assert forall k :: 0 <= k < j - i ==> c[i..j][k] == b[i..j][k];
    }
  }

  /** A slice of digits: every character in its range is a digit. */
  lemma SliceDigits(c: string, i: nat, j: nat)
    requires i <= j <= |c| && AllDigits(c[i..j])
    ensures forall k :: i <= k < j ==> IsDigit(c[k])
  {
    forall k | i <= k < j ensures IsDigit(c[k]) {
      assert c[k] == c[i..j][k - i];
    }
  }

  /** A range of digits read as a slice. */
  lemma DigitsSlice(c: string, i: nat, j: nat)
    requires i <= j <= |c| && forall k :: i <= k < j ==> IsDigit(c[k])
    ensures AllDigits(c[i..j])
  {
    forall k | 0 <= k < j - i ensures IsDigit(c[i..j][k]) {
      assert c[i..j][k] == c[i + k];
    }
  }
}
