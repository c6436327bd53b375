/** The string functions of the Go library the services use. */
module Text {
  /** unicode.IsSpace. */
  predicate IsSpace(c: char) {
    || '\t' <= c <= '\r' || c == ' ' || c == '\U{85}' || c == '\U{A0}' || c == '\U{1680}'
    || '\U{2000}' <= c <= '\U{200A}' || c == '\U{2028}' || c == '\U{2029}' || c == '\U{202F}'
    || c == '\U{205F}' || c == '\U{3000}'
  }

  /** The spaces of Unicode below U+10000, by their numbers. */
  lemma SpaceCodes(c: char)
    ensures IsSpace(c) <==>
      c as int in {0x09, 0x0a, 0x0b, 0x0c, 0x0d, 0x20, 0x85, 0xa0, 0x1680, 0x2000, 0x2001, 0x2002, 0x2003, 0x2004, 0x2005, 0x2006, 0x2007,
                   0x2008, 0x2009, 0x200a, 0x2028, 0x2029, 0x202f, 0x205f, 0x3000}
  {
  }

  function TrimLeft(s: string): (r: string)
    ensures |r| <= |s| && r == s[|s| - |r|..]
    ensures r != "" ==> !IsSpace(r[0])
  {
    if s != "" && IsSpace(s[0]) then TrimLeft(s[1..]) else s
  }

  function TrimRight(s: string): (r: string)
    ensures r <= s
    ensures r != "" ==> !IsSpace(r[|r| - 1])
  {
    if s != "" && IsSpace(s[|s| - 1]) then TrimRight(s[..|s| - 1]) else s
  }

  /** Neither end is a space. */
  predicate Trimmed(s: string) {
    s != "" ==> !IsSpace(s[0]) && !IsSpace(s[|s| - 1])
  }

  /** strings.TrimSpace. */
  function TrimSpace(s: string): (r: string)
    ensures Trimmed(r)
    ensures Trimmed(s) ==> r == s
  {
    TrimRight(TrimLeft(s))
  }

  lemma TrimSpaceWithin(s: string, c: char)
    requires c in TrimSpace(s)
    ensures c in s
  {
  }

  /** Nothing but spaces. */
  predicate Blank(s: string) {
    forall i | 0 <= i < |s| :: IsSpace(s[i])
  }

  lemma {:induction false} BlankLeft(s: string)
    ensures TrimLeft(s) == "" <==> Blank(s)
  {
    if s != "" && IsSpace(s[0]) {
      BlankLeft(s[1..]);
      assert forall i | 1 <= i < |s| :: s[i] == s[1..][i - 1];
    }
  }

  lemma TrimSpaceBlank(s: string)
    ensures TrimSpace(s) == "" <==> Blank(s)
  {
    BlankLeft(s);
    var t := TrimLeft(s);
    if t != "" {
      TrimRightKeeps(t, 0);
    }
  }

  lemma {:induction false} TrimRightKeeps(s: string, i: nat)
    requires i < |s| && !IsSpace(s[i])
    ensures TrimRight(s) != ""
  {
    if IsSpace(s[|s| - 1]) { TrimRightKeeps(s[..|s| - 1], i); }
  }

  function UpperChar(c: char): char {
    if 'a' <= c <= 'z' then c - 'a' + 'A' else c
  }

  /** strings.ToUpper, on ASCII letters. */
  function ToUpper(s: string): string {
    seq(|s|, i requires 0 <= i < |s| => UpperChar(s[i]))
  }

  /** How coupon codes are looked up. */
  function Normalize(code: string): string {
    ToUpper(TrimSpace(code))
  }

  lemma UpperKeepsEnds(s: string)
    requires Trimmed(s)
    ensures Trimmed(ToUpper(s)) && ToUpper(ToUpper(s)) == ToUpper(s)
  {
    assert forall c :: IsSpace(UpperChar(c)) ==> IsSpace(c);
    var u := ToUpper(s);
    assert forall i | 0 <= i < |u| :: UpperChar(u[i]) == u[i];
  }

  /** Every layer normalises the code again: that changes nothing. */
  lemma NormalizeTwice(code: string)
    ensures Normalize(Normalize(code)) == Normalize(code)
  {
    UpperKeepsEnds(TrimSpace(code));
  }

  // ------------------------------------------------------------------ codes

  /** The same character, or the lower-case letter of an upper-case one. */
  predicate SameLetter(a: char, b: char) {
    a == b || ('a' <= a <= 'z' && a as int == b as int + 32)
  }

  /** A code as it is stored: neither blanks around it nor lower-case letters. */
  predicate Stands(code: string) {
    code != "" && Trimmed(code) && forall i | 0 <= i < |code| :: !('a' <= code[i] <= 'z')
  }

  /** From i to j the text is the code in any case, and around it there are only blanks. */
  predicate SpellsAt(text: string, code: string, i: int, j: int) {
    && 0 <= i <= j <= |text| && Blank(text[..i]) && Blank(text[j..]) && j - i == |code|
    && forall k | 0 <= k < |code| :: SameLetter(text[i + k], code[k])
  }

  ghost predicate Spells(text: string, code: string) {
    exists i, j :: SpellsAt(text, code, i, j)
  }

  lemma {:induction false} TrimLeftAt(s: string, i: nat)
    requires i < |s| && Blank(s[..i]) && !IsSpace(s[i])
    ensures TrimLeft(s) == s[i..]
  {
    if i > 0 {
      assert s[0] == s[..i][0];
      assert s[1..][..i - 1] == s[..i][1..];
      TrimLeftAt(s[1..], i - 1);
    }
  }

  lemma {:induction false} TrimRightAt(s: string, n: nat)
    requires 0 < n <= |s| && Blank(s[n..]) && !IsSpace(s[n - 1])
    ensures TrimRight(s) == s[..n]
  {
    if n < |s| {
      var m := |s| - 1;
      assert s[m] == s[n..][m - n];
      assert s[..m][n..] == s[n..][..m - n];
      TrimRightAt(s[..m], n);
    } else {
      assert s[..n] == s;
    }
  }

  lemma {:induction false} TrimLeftCuts(s: string)
    ensures Blank(s[..|s| - |TrimLeft(s)|])
  {
    if s != "" && IsSpace(s[0]) {
      TrimLeftCuts(s[1..]);
      var n := |s| - |TrimLeft(s)|;
      assert s[..n] == [s[0]] + s[1..][..n - 1];
    }
  }

  lemma {:induction false} TrimRightCuts(s: string)
    ensures Blank(s[|TrimRight(s)|..])
  {
    if s != "" && IsSpace(s[|s| - 1]) {
      var m := |s| - 1;
      TrimRightCuts(s[..m]);
      var n := |TrimRight(s)|;
      assert s[n..] == s[..m][n..] + [s[m]];
    }
  }

  lemma TrimSpaceAt(text: string, i: nat, n: nat)
    requires 0 < n && i + n <= |text| && Blank(text[..i]) && Blank(text[i + n..])
    requires !IsSpace(text[i]) && !IsSpace(text[i + n - 1])
    ensures TrimSpace(text) == text[i..i + n]
  {
    TrimLeftAt(text, i);
    var t := text[i..];
    assert t[n..] == text[i + n..];
    TrimRightAt(t, n);
  }

  lemma SameLetters(w: string, code: string)
    requires |w| == |code| && forall k | 0 <= k < |code| :: SameLetter(w[k], code[k]) && !('a' <= code[k] <= 'z')
    ensures ToUpper(w) == code
  {
  }

  lemma SpelledEnds(text: string, code: string, i: nat, n: nat)
    requires Stands(code) && n == |code| && SpellsAt(text, code, i, i + n)
    ensures !IsSpace(text[i]) && !IsSpace(text[i + n - 1])
  {
    assert SameLetter(text[i + 0], code[0]) && SameLetter(text[i + (n - 1)], code[n - 1]);
  }

  lemma SpelledLetters(text: string, code: string, i: nat, n: nat)
    requires Stands(code) && n == |code| && SpellsAt(text, code, i, i + n)
    ensures ToUpper(text[i..i + n]) == code
  {
    var w := text[i..i + n];
    forall k | 0 <= k < n ensures SameLetter(w[k], code[k]) {
      assert w[k] == text[i + k];
    }
    SameLetters(w, code);
  }

  lemma SpelledIsFound(text: string, code: string, i: nat, n: nat)
    requires Stands(code) && n == |code| && SpellsAt(text, code, i, i + n)
    ensures Normalize(text) == code
  {
    SpelledEnds(text, code, i, n);
    TrimSpaceAt(text, i, n);
    SpelledLetters(text, code, i, n);
  }

  /** What TrimSpace leaves, and the blanks it takes away on both sides. */
  lemma TrimSpaceCuts(text: string) returns (i: nat, j: nat)
    ensures i <= j <= |text| && TrimSpace(text) == text[i..j] && Blank(text[..i]) && Blank(text[j..])
  {
    var t := TrimLeft(text);
    TrimLeftCuts(text);
    TrimRightCuts(t);
    i := |text| - |t|;
    j := i + |TrimSpace(text)|;
    assert text[j..] == t[|TrimSpace(text)|..];
  }

  lemma SpelledByItself(text: string, i: nat, j: nat)
    requires i <= j <= |text| && Blank(text[..i]) && Blank(text[j..])
    ensures SpellsAt(text, ToUpper(text[i..j]), i, j)
  {
    forall k | 0 <= k < j - i ensures SameLetter(text[i + k], ToUpper(text[i..j])[k]) {
      assert text[i..j][k] == text[i + k];
    }
  }

  /** Every text that is not blank spells one code. */
  lemma CodeStands(text: string)
    requires !Blank(text)
    ensures Stands(Normalize(text)) && Spells(text, Normalize(text))
  {
    TrimSpaceBlank(text);
    UpperKeepsEnds(TrimSpace(text));
    var i, j := TrimSpaceCuts(text);
    SpelledByItself(text, i, j);
  }

  /** A text is looked up under a stored code exactly if it is that code in any case with blanks around it. */
  lemma NormalizesExactly(text: string, code: string)
    requires Stands(code)
    ensures Normalize(text) == code <==> Spells(text, code)
  {
    if Spells(text, code) {
      var i, j :| SpellsAt(text, code, i, j);
      SpelledIsFound(text, code, i, |code|);
    } else if Normalize(text) == code {
      TrimSpaceBlank(text);
      CodeStands(text);
    }
  }

  /** A blank text is no code. */
  lemma BlankIsNoCode(text: string)
    ensures Normalize(text) == "" <==> Blank(text)
  {
    TrimSpaceBlank(text);
    assert |Normalize(text)| == |TrimSpace(text)|;
  }

  // ------------------------------------------------------------------ order

  /** The byte order of Go strings. */
  predicate Less(a: string, b: string) {
    if b == "" then false
    else if a == "" then true
    else a[0] < b[0] || (a[0] == b[0] && Less(a[1..], b[1..]))
  }

  /** The strings agree before position k, where the first one ends or has the smaller character. */
  predicate LessAt(a: string, b: string, k: nat) {
    k <= |a| && k < |b| && a[..k] == b[..k] && (k == |a| || a[k] < b[k])
  }

  lemma {:induction false} LessSomewhere(a: string, b: string)
    requires Less(a, b)
    ensures exists k: nat :: LessAt(a, b, k)
  {
    if a == "" || a[0] < b[0] {
      assert LessAt(a, b, 0);
    } else {
      LessSomewhere(a[1..], b[1..]);
      var k: nat :| LessAt(a[1..], b[1..], k);
      assert a[..k + 1] == [a[0]] + a[1..][..k] && b[..k + 1] == [b[0]] + b[1..][..k];
      assert LessAt(a, b, k + 1);
    }
  }

  lemma {:induction false} LessFrom(a: string, b: string, k: nat)
    requires LessAt(a, b, k)
    ensures Less(a, b)
  {
    if k > 0 {
      assert a[0] == a[..k][0] == b[..k][0] == b[0];
      assert a[1..][..k - 1] == a[..k][1..] == b[..k][1..] == b[1..][..k - 1];
      LessFrom(a[1..], b[1..], k - 1);
    }
  }

  /** It is the lexicographic order. */
  lemma LessExactly(a: string, b: string)
    ensures Less(a, b) <==> exists k: nat :: LessAt(a, b, k)
  {
    if Less(a, b) {
      LessSomewhere(a, b);
    } else if k: nat :| LessAt(a, b, k) {
      LessFrom(a, b, k);
    }
  }

  lemma {:induction false} LessTotal(a: string, b: string)
    ensures a == b || Less(a, b) || Less(b, a)
    ensures !(Less(a, b) && Less(b, a))
  {
    if a != "" && b != "" && a[0] == b[0] {
      LessTotal(a[1..], b[1..]);
      assert a == [a[0]] + a[1..] && b == [b[0]] + b[1..];
    }
  }

  lemma {:induction false} LessTransitive(a: string, b: string, c: string)
    requires !Less(b, a) && !Less(c, b)
    ensures !Less(c, a)
  {
    if a != "" && b != "" && c != "" && a[0] == c[0] && Less(c[1..], a[1..]) {
      LessTransitive(a[1..], b[1..], c[1..]);
    }
  }

  // ----------------------------------------------------------- joined lists

  /** strings.Join with a comma. */
  function Join(parts: seq<string>): string {
    if parts == [] then ""
    else if |parts| == 1 then parts[0]
    else parts[0] + "," + Join(parts[1..])
  }

  /** strings.Split at commas: never empty. */
  function Split(s: string): (parts: seq<string>)
    ensures |parts| >= 1
    ensures forall p | p in parts :: ',' !in p
  {
    if s == "" then [""]
    else
      var rest := Split(s[1..]);
      if s[0] == ',' then [""] + rest else [[s[0]] + rest[0]] + rest[1..]
  }

  lemma {:induction false} SplitWhole(s: string)
    requires ',' !in s
    ensures Split(s) == [s]
  {
    if s != "" {
      SplitWhole(s[1..]);
      assert [s[0]] + s[1..] == s;
    }
  }

  lemma {:induction false} SplitFirst(s: string, rest: string)
    requires ',' !in s
    ensures Split(s + "," + rest) == [s] + Split(rest)
  {
    if s == "" {
      assert (s + "," + rest)[1..] == rest;
    } else {
      assert (s + "," + rest)[1..] == s[1..] + "," + rest;
      SplitFirst(s[1..], rest);
      assert [s[0]] + s[1..] == s;
      assert ([s[1..]] + Split(rest))[1..] == Split(rest);
    }
  }

  /** Splitting undoes joining, except that no parts at all come back as one empty part. */
  lemma {:induction false} SplitJoin(parts: seq<string>)
    requires forall p | p in parts :: ',' !in p
    ensures Split(Join(parts)) == if parts == [] then [""] else parts
  {
    if |parts| == 1 {
      SplitWhole(parts[0]);
    } else if parts != [] {
      SplitJoin(parts[1..]);
      SplitFirst(parts[0], Join(parts[1..]));
    }
  }
}
