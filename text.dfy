/**
 * The Python string primitives that the normalisers and the alias expander
 * use, over the ASCII range: `str.isspace`, `str.isalpha`, `\w`,
 * `str.lower`, `str.upper`, `str.strip`, `str.split`, `str.replace`, the
 * substring test `sub in s`, and the character-class substitutions
 * `re.sub(r'[^\w\s]', ' ', s)`, `re.sub(r'\s+', ' ', s)` and
 * `re.sub(r'[.\-_]', '', s)`.
 */
module Text {

  /** `\s` and `str.isspace` on ASCII: space, \t \n \v \f \r and the separators 0x1C-0x1F. */
  predicate IsSpace(c: char) {
    c == ' ' || 9 <= c as int <= 13 || 28 <= c as int <= 31
  }

  predicate IsUpper(c: char) { 'A' <= c <= 'Z' }

  predicate IsLower(c: char) { 'a' <= c <= 'z' }

  /** No character of `s` is a capital. */
  predicate NoUpper(s: string) {
    forall i :: 0 <= i < |s| ==> !IsUpper(s[i])
  }

  /** `str.isalpha` on ASCII. */
  predicate IsAlpha(c: char) { IsUpper(c) || IsLower(c) }

  predicate IsDigit(c: char) { '0' <= c <= '9' }

  /** `\w` on ASCII. */
  predicate IsWordChar(c: char) { IsAlpha(c) || IsDigit(c) || c == '_' }

  function LowerChar(c: char): (d: char)
    ensures !IsUpper(d)
    ensures IsSpace(d) <==> IsSpace(c)
    ensures IsWordChar(d) <==> IsWordChar(c)
    ensures !IsUpper(c) ==> d == c
  {
    if IsUpper(c) then (c as int + 32) as char else c
  }

  function UpperChar(c: char): (d: char)
    ensures !IsLower(d)
    ensures IsSpace(d) <==> IsSpace(c)
    ensures IsAlpha(d) <==> IsAlpha(c)
    ensures IsLower(c) ==> IsUpper(d)
    ensures !IsLower(c) ==> d == c
  {
    if IsLower(c) then (c as int - 32) as char else c
  }

  /** `s.lower()`. */
  function Lower(s: string): (r: string)
    ensures |r| == |s|
    ensures forall i :: 0 <= i < |r| ==> !IsUpper(r[i]) && r[i] == LowerChar(s[i])
  {
    seq(|s|, i requires 0 <= i < |s| => LowerChar(s[i]))
  }

  /** `s.upper()`. */
  function Upper(s: string): (r: string)
    ensures |r| == |s|
    ensures forall i :: 0 <= i < |r| ==> !IsLower(r[i]) && r[i] == UpperChar(s[i])
  {
    seq(|s|, i requires 0 <= i < |s| => UpperChar(s[i]))
  }

  /** `upper` leaves a string without lower-case letters alone. */
  lemma UpperKeeps(s: string)
    requires forall i :: 0 <= i < |s| ==> !IsLower(s[i])
    ensures Upper(s) == s
  {
  }

  /** Case-insensitive equality, as `re.IGNORECASE` compares letters. */
  predicate EqualsIgnoreCase(a: string, b: string) {
    Lower(a) == Lower(b)
  }

  predicate EndsWith(s: string, suffix: string) {
    |suffix| <= |s| && s[|s| - |suffix|..] == suffix
  }

  /** `sub in s` for two strings. */
  predicate Contains(s: string, sub: string)
    decreases |s|
  {
    |sub| <= |s| && (s[..|sub|] == sub || Contains(s[1..], sub))
  }

  /** `sub` occurs in `s` at position `i`. */
  predicate OccursAt(s: string, sub: string, i: int) {
    0 <= i && i + |sub| <= |s| && s[i..i + |sub|] == sub
  }

  /** `Contains` holds exactly when `sub` occurs somewhere in `s`. */
  lemma {:induction false} ContainsIff(s: string, sub: string)
    ensures Contains(s, sub) <==> exists i :: OccursAt(s, sub, i)
    decreases |s|
  {
    if |sub| > |s| {
    } else if s[..|sub|] == sub {
      assert OccursAt(s, sub, 0);
    } else {
      ContainsIff(s[1..], sub);
      if exists i :: OccursAt(s, sub, i) {
        var i :| OccursAt(s, sub, i);
        assert s[1..][i - 1..i - 1 + |sub|] == s[i..i + |sub|];
        assert OccursAt(s[1..], sub, i - 1);
      }
      if Contains(s[1..], sub) {
        var i :| OccursAt(s[1..], sub, i);
        assert s[1..][i..i + |sub|] == s[i + 1..i + 1 + |sub|];
        assert OccursAt(s, sub, i + 1);
      }
    }
  }

  /** `s.lstrip()`: drops the leading whitespace. */
  function LStrip(s: string): (r: string)
    ensures |r| <= |s| && r == s[|s| - |r|..]
    ensures r == [] || !IsSpace(r[0])
    ensures forall i :: 0 <= i < |s| - |r| ==> IsSpace(s[i])
    decreases |s|
  {
    if s != [] && IsSpace(s[0]) then LStrip(s[1..]) else s
  }

  /** `s.rstrip()`: drops the trailing whitespace. */
  function RStrip(s: string): (r: string)
    ensures |r| <= |s| && r == s[..|r|]
    ensures r == [] || !IsSpace(r[|r| - 1])
    ensures forall i :: |r| <= i < |s| ==> IsSpace(s[i])
    decreases |s|
  {
    if s != [] && IsSpace(s[|s| - 1]) then RStrip(s[..|s| - 1]) else s
  }

  /** `s.strip()`: the slice of `s` that starts and ends with a non-whitespace character. */
  function Strip(s: string): (r: string)
    ensures |LStrip(s)| <= |s| && |r| <= |LStrip(s)|
    ensures r == s[|s| - |LStrip(s)|..|s| - |LStrip(s)| + |r|]
    ensures r == [] || (!IsSpace(r[0]) && !IsSpace(r[|r| - 1]))
    ensures r == [] <==> forall i :: 0 <= i < |s| ==> IsSpace(s[i])
    ensures forall i :: 0 <= i < |s| - |LStrip(s)| ==> IsSpace(s[i])
    ensures forall i :: |s| - |LStrip(s)| + |r| <= i < |s| ==> IsSpace(s[i])
  {
    var l := LStrip(s);
    var r := RStrip(l);
    StripFacts(s, l, r);
    r
  }

  /** A string `l` that ends `s` and starts with no whitespace after
      whitespace, cut down to `r` at whitespace, is a slice of `s` with
      whitespace on both sides. */
  lemma StripFacts(s: string, l: string, r: string)
    requires |l| <= |s| && l == s[|s| - |l|..] && (l == [] || !IsSpace(l[0]))
    requires forall i :: 0 <= i < |s| - |l| ==> IsSpace(s[i])
    requires |r| <= |l| && r == l[..|r|] && (r == [] || !IsSpace(r[|r| - 1]))
    requires forall i :: |r| <= i < |l| ==> IsSpace(l[i])
    ensures r == s[|s| - |l|..|s| - |l| + |r|]
    ensures r == [] <==> forall i :: 0 <= i < |s| ==> IsSpace(s[i])
    ensures forall i :: |s| - |l| + |r| <= i < |s| ==> IsSpace(s[i])
  {
    var k := |s| - |l|;
    assert s[k..][..|r|] == s[k..k + |r|];
    assert r == [] ==> l == [] by {
      if l != [] {
        assert !IsSpace(l[0]);
      }
    }
    forall i | k + |r| <= i < |s| ensures IsSpace(s[i]) {
      assert IsSpace(l[i - k]);
      assert s[k..][i - k] == s[i];
    }
  }

  /** The characters of `s` that are not whitespace, in order. */
  function NonSpace(s: string): string
    decreases |s|
  {
    if s == [] then [] else (if IsSpace(s[0]) then [] else [s[0]]) + NonSpace(s[1..])
  }

  /** The word characters of `s`, in order. */
  function WordChars(s: string): string
    decreases |s|
  {
    if s == [] then [] else (if IsWordChar(s[0]) then [s[0]] else []) + WordChars(s[1..])
  }

  lemma {:induction false} NonSpaceAppend(a: string, b: string)
    ensures NonSpace(a + b) == NonSpace(a) + NonSpace(b)
    decreases |a|
  {
    if a == [] {
      assert a + b == b;
    } else {
      assert (a + b)[1..] == a[1..] + b;
      NonSpaceAppend(a[1..], b);
    }
  }

  lemma {:induction false} NonSpaceOfSpaces(s: string)
    requires forall i :: 0 <= i < |s| ==> IsSpace(s[i])
    ensures NonSpace(s) == []
    decreases |s|
  {
    if s != [] {
      NonSpaceOfSpaces(s[1..]);
    }
  }

  lemma {:induction false} NonSpaceOfWord(s: string)
    requires forall i :: 0 <= i < |s| ==> !IsSpace(s[i])
    ensures NonSpace(s) == s
    decreases |s|
  {
    if s != [] {
      NonSpaceOfWord(s[1..]);
      assert [s[0]] + s[1..] == s;
    }
  }

  /** `lstrip` removes only whitespace. */
  lemma NonSpaceLStrip(s: string)
    ensures NonSpace(LStrip(s)) == NonSpace(s)
  {
    var k := |s| - |LStrip(s)|;
    NonSpaceLeading(s[..k], LStrip(s));
    assert s == s[..k] + LStrip(s);
  }

  /** `strip` removes only whitespace: every other character of `s` is kept, in order. */
  lemma StripNonSpace(s: string)
    ensures NonSpace(Strip(s)) == NonSpace(s)
  {
    NonSpaceMiddle(s, |s| - |LStrip(s)|, Strip(s));
  }

  /** A slice with only whitespace around it has the same non-whitespace
      characters as the whole. */
  lemma NonSpaceMiddle(s: string, k: nat, r: string)
    requires k + |r| <= |s| && r == s[k..k + |r|]
    requires forall i :: 0 <= i < k ==> IsSpace(s[i])
    requires forall i :: k + |r| <= i < |s| ==> IsSpace(s[i])
    ensures NonSpace(r) == NonSpace(s)
  {
    var a, c := s[..k], s[k + |r|..];
    assert forall i :: 0 <= i < |a| ==> IsSpace(a[i]);
    assert forall i :: 0 <= i < |c| ==> IsSpace(c[i]) by {
      assert forall i :: 0 <= i < |c| ==> c[i] == s[k + |r| + i];
    }
    NonSpaceLeading(a, r + c);
    NonSpaceTrailing(r, c);
    SliceParts(s, k, r);
    assert NonSpace(s) == NonSpace(a + (r + c));
  }

  /** A string is the part before `r`, `r` and the part after it. */
  lemma SliceParts(s: string, k: nat, r: string)
    requires k + |r| <= |s| && r == s[k..k + |r|]
    ensures s == s[..k] + (r + s[k + |r|..])
  {
  }

  /** `NonSpace(a + c) == NonSpace(c)` when `a` is all whitespace. */
  lemma NonSpaceLeading(a: string, c: string)
    requires forall i :: 0 <= i < |a| ==> IsSpace(a[i])
    ensures NonSpace(a + c) == NonSpace(c)
  {
    NonSpaceAppend(a, c);
    NonSpaceOfSpaces(a);
    assert [] + NonSpace(c) == NonSpace(c);
  }

  /** `NonSpace(a + c) == NonSpace(a)` when `c` is all whitespace. */
  lemma NonSpaceTrailing(a: string, c: string)
    requires forall i :: 0 <= i < |c| ==> IsSpace(c[i])
    ensures NonSpace(a + c) == NonSpace(a)
  {
    NonSpaceAppend(a, c);
    NonSpaceOfSpaces(c);
    assert NonSpace(a) + [] == NonSpace(a);
  }

  /** A string without whitespace is already trimmed. */
  lemma StripUnspaced(s: string)
    requires forall i :: 0 <= i < |s| ==> !IsSpace(s[i])
    ensures Strip(s) == s
  {
    assert LStrip(s) == s;
    assert RStrip(s) == s;
  }

  /** One space on each side of a trimmed string is trimmed off. */
  lemma StripPadded(x: string)
    requires x != [] && !IsSpace(x[0]) && !IsSpace(x[|x| - 1])
    ensures Strip(" " + x + " ") == x
  {
    var t := " " + x + " ";
    assert LStrip(t) == x + " " by {
      assert t == [' '] + (x + [' ']);
      LStripSpaces([' '], x + [' ']);
    }
    assert RStrip(x + " ") == x by {
      assert RStrip(x + " ") == RStrip(x);
    }
  }

  /** The characters that `Strip` keeps are characters of its input. */
  lemma StripChars(s: string)
    ensures forall i :: 0 <= i < |Strip(s)| ==> Strip(s)[i] in s
  {
    SliceChars(s, |s| - |LStrip(s)|, Strip(s));
  }

  /** Every character of a slice is a character of the whole. */
  lemma SliceChars(s: string, k: nat, t: string)
    requires k + |t| <= |s| && t == s[k..k + |t|]
    ensures forall i :: 0 <= i < |t| ==> t[i] in s
  {
    forall i | 0 <= i < |t| ensures t[i] in s {
      assert t[i] == s[k + i];
    }
  }

  /** `re.sub(r'[^\w\s]', ' ', s)`: every character that is neither a word
      character nor whitespace becomes a space. */
  function BlankNonWord(s: string): (r: string)
    ensures |r| == |s|
    ensures forall i :: 0 <= i < |r| ==> (IsWordChar(r[i]) || IsSpace(r[i])) && (r[i] == s[i] || r[i] == ' ')
    ensures forall i :: 0 <= i < |s| && (IsWordChar(s[i]) || IsSpace(s[i])) ==> r[i] == s[i]
  {
    seq(|s|, i requires 0 <= i < |s| => if IsWordChar(s[i]) || IsSpace(s[i]) then s[i] else ' ')
  }

  /** After the substitution the non-whitespace characters are exactly the
      word characters of `s`, in order. */
  lemma {:induction false} BlankNonWordWords(s: string)
    ensures NonSpace(BlankNonWord(s)) == WordChars(s)
    decreases |s|
  {
    if s != [] {
      var b := BlankNonWord(s);
      assert b[1..] == BlankNonWord(s[1..]);
      BlankNonWordWords(s[1..]);
      assert IsSpace(b[0]) <==> !IsWordChar(s[0]);
    }
  }

  /** No two spaces in a row. */
  predicate NoDoubleSpace(s: string) {
    forall i, j :: 0 <= i < |s| && j == i + 1 < |s| ==> !(s[i] == ' ' && s[j] == ' ')
  }

  /** A character in front of a string with no double space keeps it so,
      unless both are spaces; a character of `s` or a space in front of
      characters of `t` that are spaces or non-whitespace characters of `s`
      keeps that too. */
  lemma CollapseCons(c: char, rest: string, t: string, s: string)
    requires NoDoubleSpace(rest)
    requires c == ' ' ==> rest == [] || rest[0] != ' '
    requires c == ' ' || (c in s && !IsSpace(c))
    requires forall i :: 0 <= i < |rest| ==> rest[i] == ' ' || (rest[i] in t && !IsSpace(rest[i]))
    requires forall x :: x in t ==> x in s
    ensures NoDoubleSpace([c] + rest)
    ensures forall i :: 0 <= i < |rest| + 1 ==> ([c] + rest)[i] == ' ' || (([c] + rest)[i] in s && !IsSpace(([c] + rest)[i]))
  {
    var r := [c] + rest;
    forall i, j | 0 <= i < |r| && j == i + 1 < |r|
      ensures !(r[i] == ' ' && r[j] == ' ')
    {
      if i > 0 {
        assert r[i] == rest[i - 1] && r[j] == rest[j - 1];
      }
    }
    forall i | 0 < i < |r|
      ensures r[i] == ' ' || (r[i] in s && !IsSpace(r[i]))
    {
      assert r[i] == rest[i - 1];
    }
  }

  /** The characters that `LStrip` keeps are characters of its input. */
  lemma LStripChars(s: string)
    ensures forall x :: x in LStrip(s) ==> x in s
  {
    DropChars(s, |s| - |LStrip(s)|);
  }

  /** Dropping a prefix brings in no new character. */
  lemma DropChars(s: string, n: nat)
    requires n <= |s|
    ensures forall x :: x in s[n..] ==> x in s
  {
    forall x | x in s[n..] ensures x in s {
      var k :| 0 <= k < |s[n..]| && s[n..][k] == x;
      assert s[n + k] == x;
    }
  }

  /** `re.sub(r'\s+', ' ', s)`: every maximal run of whitespace becomes one
      space. `CollapseSpaceWords` shows that the words are those of `s`. */
  function CollapseSpace(s: string): (r: string)
    ensures forall i :: 0 <= i < |r| ==> r[i] == ' ' || (r[i] in s && !IsSpace(r[i]))
    ensures NoDoubleSpace(r)
    ensures s != [] ==> r != [] && (IsSpace(s[0]) <==> r[0] == ' ')
    ensures NonSpace(r) == NonSpace(s)
    decreases |s|
  {
    if s == [] then []
    else if IsSpace(s[0]) then
      var t := LStrip(s[1..]);
      var rest := CollapseSpace(t);
      LStripChars(s[1..]);
      assert forall x :: x in s[1..] ==> x in s;
      CollapseCons(' ', rest, t, s);
      NonSpaceLStrip(s[1..]);
      assert ([' '] + rest)[1..] == rest;
      [' '] + rest
    else
      var rest := CollapseSpace(s[1..]);
      assert forall x :: x in s[1..] ==> x in s;
      CollapseCons(s[0], rest, s[1..], s);
      assert ([s[0]] + rest)[1..] == rest;
      [s[0]] + rest
  }

  /** Collapsing whitespace keeps the words of `s`: `split` sees no
      difference. */
  lemma {:induction false} CollapseSpaceWords(s: string)
    ensures Split(CollapseSpace(s)) == Split(s)
    decreases |s|
  {
    if s != [] {
      var r := CollapseSpace(s);
      if IsSpace(s[0]) {
        var t := LStrip(s[1..]);
        var rest := CollapseSpace(t);
        assert r == [' '] + rest;
        CollapseSpaceWords(t);
        assert Split(rest) == Split(s[1..]) by {
          SplitLStrip(s[1..]);
        }
        CollapseRun(s, rest);
      } else {
        var u := s[1..];
        var rest := CollapseSpace(u);
        assert r == [s[0]] + rest;
        assert rest == [] <==> u == [];
        CollapseSpaceWords(u);
        CollapseWord(s, u, rest, r);
      }
    }
  }

  /** The result ends in a space exactly where `s` ends in whitespace. With
      the first-character clause of `CollapseSpace` and `CollapseSpaceWords`,
      this places every space of the result. */
  lemma {:induction false} CollapseSpaceEnds(s: string)
    ensures s != [] ==> (IsSpace(s[|s| - 1]) <==> CollapseSpace(s)[|CollapseSpace(s)| - 1] == ' ')
    decreases |s|
  {
    if s != [] {
      var r := CollapseSpace(s);
      if IsSpace(s[0]) {
        var t := LStrip(s[1..]);
        var rest := CollapseSpace(t);
        assert r == [' '] + rest;
        assert rest == [] <==> t == [];
        CollapseSpaceEnds(t);
        CollapseRunLast(s, t, rest, r);
      } else {
        var u := s[1..];
        var rest := CollapseSpace(u);
        assert r == [s[0]] + rest;
        assert rest == [] <==> u == [];
        CollapseSpaceEnds(u);
        CollapseWordLast(s, u, rest, r);
      }
    }
  }

  /** A run of whitespace at the front of `s` becomes one space in front of
      the collapsed rest, which has the words of `s`. */
  lemma CollapseRun(s: string, rest: string)
    requires s != [] && IsSpace(s[0]) && Split(rest) == Split(s[1..])
    ensures Split([' '] + rest) == Split(s)
  {
    LStripSpaces([' '], rest);
    SplitDropSpace(s);
  }

  /** The last character of a collapsed run is a space exactly when `s` ends in whitespace. */
  lemma CollapseRunLast(s: string, t: string, rest: string, r: string)
    requires s != [] && IsSpace(s[0]) && t == LStrip(s[1..]) && r == [' '] + rest
    requires rest == [] <==> t == []
    requires t != [] ==> (IsSpace(t[|t| - 1]) <==> rest[|rest| - 1] == ' ')
    ensures IsSpace(s[|s| - 1]) <==> r[|r| - 1] == ' '
  {
    var u := s[1..];
    if t == [] {
      assert forall i :: 0 <= i < |u| ==> IsSpace(u[i]);
      if |s| > 1 {
        assert s[|s| - 1] == u[|u| - 1];
      }
    } else {
      assert t[|t| - 1] == u[|u| - 1] == s[|s| - 1];
      assert r[|r| - 1] == rest[|rest| - 1];
    }
  }

  /** Leading whitespace adds no word. */
  lemma SplitDropSpace(s: string)
    requires s != [] && IsSpace(s[0])
    ensures Split(s) == Split(s[1..])
  {
    assert s == [s[0]] + s[1..];
    LStripSpaces([s[0]], s[1..]);
  }

  /** A non-whitespace character in front of the collapsed rest keeps the
      words of `s`. */
  lemma CollapseWord(s: string, u: string, rest: string, r: string)
    requires s != [] && !IsSpace(s[0]) && u == s[1..] && r == [s[0]] + rest
    requires rest == [] <==> u == []
    requires u != [] ==> (IsSpace(u[0]) <==> rest[0] == ' ')
    requires forall i :: 0 <= i < |rest| ==> rest[i] == ' ' || !IsSpace(rest[i])
    requires Split(rest) == Split(u)
    ensures Split(r) == Split(s)
  {
    assert s == [s[0]] + u;
    assert (rest == [] || IsSpace(rest[0])) == (u == [] || IsSpace(u[0]));
    SplitConsSame(s[0], rest, u);
  }

  /** Two strings with the same words that both start, or both do not
      start, inside a word keep the same words behind a common non-space
      character. */
  lemma SplitConsSame(c: char, x: string, y: string)
    requires !IsSpace(c) && Split(x) == Split(y)
    requires (x == [] || IsSpace(x[0])) == (y == [] || IsSpace(y[0]))
    ensures Split([c] + x) == Split([c] + y)
  {
    SplitCons(c, x);
    SplitCons(c, y);
  }

  /** The last character after a non-whitespace character in front of the
      collapsed rest is a space exactly when `s` ends in whitespace. */
  lemma CollapseWordLast(s: string, u: string, rest: string, r: string)
    requires s != [] && !IsSpace(s[0]) && u == s[1..] && r == [s[0]] + rest
    requires rest == [] <==> u == []
    requires u != [] ==> (IsSpace(u[|u| - 1]) <==> rest[|rest| - 1] == ' ')
    ensures IsSpace(s[|s| - 1]) <==> r[|r| - 1] == ' '
  {
    if u != [] {
      assert r[|r| - 1] == rest[|rest| - 1];
      assert u[|u| - 1] == s[|s| - 1];
    }
  }

  /** `re.sub('[...]', '', s)` for the character class `cs`: deletes every
      character of `cs` and keeps the others in order. */
  function DeleteChars(s: string, cs: set<char>): (r: string)
    ensures forall i :: 0 <= i < |r| ==> r[i] !in cs && r[i] in s
    ensures (forall i :: 0 <= i < |s| ==> s[i] !in cs) ==> r == s
    decreases |s|
  {
    if s == [] then []
    else (if s[0] in cs then [] else [s[0]]) + DeleteChars(s[1..], cs)
  }

  /** Deleting characters brings no whitespace in. */
  lemma DeleteCharsUnspaced(s: string, cs: set<char>)
    requires forall i :: 0 <= i < |s| ==> !IsSpace(s[i])
    ensures forall i :: 0 <= i < |DeleteChars(s, cs)| ==> !IsSpace(DeleteChars(s, cs)[i])
  {
    var r := DeleteChars(s, cs);
    forall i | 0 <= i < |r| ensures !IsSpace(r[i]) {
      var j :| 0 <= j < |s| && s[j] == r[i];
    }
  }

  /** The deletion works character by character, so it keeps the order of
      what is left: deleting from `a + b` is deleting from `a`, then from `b`. */
  lemma {:induction false} DeleteCharsAppend(a: string, b: string, cs: set<char>)
    ensures DeleteChars(a + b, cs) == DeleteChars(a, cs) + DeleteChars(b, cs)
    decreases |a|
  {
    if a == [] {
      assert a + b == b;
    } else {
      var x := a + b;
      assert x[0] == a[0] && x[1..] == a[1..] + b;
      assert DeleteChars(x, cs) == (if a[0] in cs then [] else [a[0]]) + DeleteChars(x[1..], cs);
      DeleteCharsAppend(a[1..], b, cs);
    }
  }

  /** The longest prefix of `s` that holds no whitespace. */
  function TakeWord(s: string): (w: string)
    ensures |w| <= |s| && w == s[..|w|]
    ensures forall i :: 0 <= i < |w| ==> !IsSpace(w[i])
    ensures |w| < |s| ==> IsSpace(s[|w|])
    ensures s != [] && !IsSpace(s[0]) ==> w != []
    decreases |s|
  {
    if s == [] || IsSpace(s[0]) then [] else [s[0]] + TakeWord(s[1..])
  }

  /** A non-empty run of non-whitespace characters, as `str.split` yields. */
  predicate IsToken(w: string) {
    w != [] && forall j :: 0 <= j < |w| ==> !IsSpace(w[j])
  }

  /** `TakeWord` is the one prefix without whitespace that ends at whitespace or at the end. */
  lemma TakeWordIs(s: string, w: string)
    requires |w| <= |s| && w == s[..|w|]
    requires forall i :: 0 <= i < |w| ==> !IsSpace(w[i])
    requires |w| == |s| || IsSpace(s[|w|])
    ensures TakeWord(s) == w
  {
    var t := TakeWord(s);
    assert forall i :: 0 <= i < |w| ==> !IsSpace(s[i]) by {
      assert forall i :: 0 <= i < |w| ==> s[i] == w[i];
    }
    assert forall i :: 0 <= i < |t| ==> !IsSpace(s[i]) by {
      assert forall i :: 0 <= i < |t| ==> s[i] == t[i];
    }
    assert |t| == |w|;
  }

  /** The words, run together. */
  function Concat(words: seq<string>): string
    decreases |words|
  {
    if words == [] then [] else words[0] + Concat(words[1..])
  }

  /** `s.split()`: the maximal runs of non-whitespace characters, in order.
      Run together, the words are the non-whitespace characters of `s`. */
  function Split(s: string): (words: seq<string>)
    ensures forall i :: 0 <= i < |words| ==> IsToken(words[i])
    ensures Concat(words) == NonSpace(s)
    decreases |s|
  {
    var t := LStrip(s);
    NonSpaceLStrip(s);
    if t == [] then []
    else
      var w := TakeWord(t);
      var rest := Split(t[|w|..]);
      SplitStep(t, w, rest);
      [w] + rest
  }

  /** A word and the words after it, run together, are the non-whitespace
      characters of the string the word starts. */
  lemma SplitStep(t: string, w: string, rest: seq<string>)
    requires w == TakeWord(t) && Concat(rest) == NonSpace(t[|w|..])
    ensures Concat([w] + rest) == NonSpace(t)
  {
    assert t == w + t[|w|..];
    NonSpaceAppend(w, t[|w|..]);
    NonSpaceOfWord(w);
    assert ([w] + rest)[0] == w && ([w] + rest)[1..] == rest;
  }

  /** Whitespace in front of `s` changes neither `lstrip` nor `split`. */
  lemma {:induction false} LStripSpaces(p: string, s: string)
    requires forall i :: 0 <= i < |p| ==> IsSpace(p[i])
    ensures LStrip(p + s) == LStrip(s)
    ensures Split(p + s) == Split(s)
    decreases |p|
  {
    if p == [] {
      assert p + s == s;
    } else {
      assert (p + s)[1..] == p[1..] + s;
      LStripSpaces(p[1..], s);
    }
  }

  /** A string that starts with a non-whitespace character splits into its
      first word and the words of what follows. */
  lemma SplitUnfold(t: string)
    requires t != [] && !IsSpace(t[0])
    ensures Split(t) == [TakeWord(t)] + Split(t[|TakeWord(t)|..])
  {
    assert LStrip(t) == t;
  }

  /** A single token splits into itself. */
  lemma SplitToken(w: string)
    requires IsToken(w)
    ensures Split(w) == [w]
  {
    TakeWordIs(w, w);
    SplitUnfold(w);
    assert w[|w|..] == [];
  }

  /** A word ends at the first whitespace character. */
  lemma TakeWordBefore(a: string, c: char, b: string)
    requires IsSpace(c)
    ensures TakeWord(a + [c] + b) == TakeWord(a)
  {
    var w := TakeWord(a);
    var t := a + [c] + b;
    assert w == t[..|w|];
    if |w| < |a| {
      assert t[|w|] == a[|w|];
    } else {
      assert t[|w|] == c;
    }
    TakeWordIs(t, w);
  }

  /** Whitespace separates words: splitting at a whitespace character
      splits each side on its own, so no word spans it and no word is lost. */
  lemma {:induction false} SplitSpaced(a: string, c: char, b: string)
    requires IsSpace(c)
    ensures Split(a + [c] + b) == Split(a) + Split(b)
    decreases |a|, 2
  {
    var a' := LStrip(a);
    SplitFromLStrip(a, c, b);
    if a' == [] {
      SplitAfterSpace(a', c, b);
    } else {
      SplitSpacedWord(a', c, b);
    }
  }

  /** Splitting a whitespace character followed by `b` splits `b`. */
  lemma SplitAfterSpace(e: string, c: char, b: string)
    requires IsSpace(c) && e == []
    ensures Split(e + [c] + b) == Split(e) + Split(b)
  {
    assert e + [c] + b == [c] + b;
    LStripSpaces([c], b);
    assert Split(e) == [];
  }

  /** `split` first drops the leading whitespace of `a`. */
  lemma SplitFromLStrip(a: string, c: char, b: string)
    ensures Split(a + [c] + b) == Split(LStrip(a) + [c] + b)
    ensures Split(a) == Split(LStrip(a))
  {
    var a' := LStrip(a);
    var p := a[..|a| - |a'|];
    assert forall i :: 0 <= i < |p| ==> IsSpace(p[i]);
    assert p + a' == a;
    assert Split(a) == Split(a') by {
      LStripSpaces(p, a');
    }
    assert Split(a + [c] + b) == Split(a' + [c] + b) by {
      AppendRegroup(p, a', [c], b);
      LStripSpaces(p, a' + [c] + b);
    }
  }

  /** Regrouping a concatenation of four strings. */
  lemma AppendRegroup(p: string, x: string, y: string, z: string)
    ensures p + (x + y + z) == (p + x) + y + z
  {
  }

  /** The same when `a` starts with a word. */
  lemma {:induction false} SplitSpacedWord(a: string, c: char, b: string)
    requires IsSpace(c) && a != [] && !IsSpace(a[0])
    ensures Split(a + [c] + b) == Split(a) + Split(b)
    decreases |a|, 1
  {
    var t := a + [c] + b;
    var w := TakeWord(a);
    TakeWordBefore(a, c, b);
    SplitUnfold(t);
    SplitUnfold(a);
    SplitRest(a, w, c, b);
    AppendAssoc([w], Split(a[|w|..]), Split(b));
  }

  lemma AppendAssoc(x: seq<string>, y: seq<string>, z: seq<string>)
    ensures x + (y + z) == (x + y) + z
  {
  }

  /** The words after the first word of `a + [c] + b`, when `a` starts with
      that word. */
  lemma {:induction false} SplitRest(a: string, w: string, c: char, b: string)
    requires IsSpace(c) && w == TakeWord(a) && a != [] && !IsSpace(a[0])
    ensures Split((a + [c] + b)[|w|..]) == Split(a[|w|..]) + Split(b)
    decreases |a|, 0
  {
    if |w| < |a| {
      assert (a + [c] + b)[|w|..] == a[|w|..] + [c] + b;
      SplitSpaced(a[|w|..], c, b);
    } else {
      assert (a + [c] + b)[|w|..] == [c] + b;
      assert a[|w|..] == [];
      LStripSpaces([c], b);
    }
  }

  /** A non-whitespace character in front of `x` is a word of its own when
      `x` starts with whitespace or is empty, and otherwise joins the first
      word of `x`. */
  lemma SplitCons(c: char, x: string)
    requires !IsSpace(c)
    ensures x == [] || IsSpace(x[0]) ==> Split([c] + x) == [[c]] + Split(x)
    ensures x != [] && !IsSpace(x[0]) ==>
      Split(x) != [] && Split([c] + x) == [[c] + Split(x)[0]] + Split(x)[1..]
  {
    if x == [] {
      SplitToken([c]);
      assert [c] + x == [c];
    } else if IsSpace(x[0]) {
      SplitConsSpace(c, x);
    } else {
      SplitConsWord(c, x);
    }
  }

  /** A word character in front of whitespace is a word of its own. */
  lemma SplitConsSpace(c: char, x: string)
    requires !IsSpace(c) && x != [] && IsSpace(x[0])
    ensures Split([c] + x) == [[c]] + Split(x)
  {
    assert [c] + x == [c] + [x[0]] + x[1..];
    SplitSpaced([c], x[0], x[1..]);
    SplitToken([c]);
    SplitDropSpace(x);
  }

  /** A word character in front of a word joins it. */
  lemma SplitConsWord(c: char, x: string)
    requires !IsSpace(c) && x != [] && !IsSpace(x[0])
    ensures Split(x) != [] && Split([c] + x) == [[c] + Split(x)[0]] + Split(x)[1..]
  {
    var y := [c] + x;
    var w := TakeWord(x);
    assert y[1..] == x;
    assert TakeWord(y) == [c] + w;
    SplitUnfold(y);
    SplitUnfold(x);
    assert y[|[c] + w|..] == x[|w|..];
  }

  /** A string of whitespace has no words. */
  lemma SplitOfSpaces(b: string)
    requires forall i :: 0 <= i < |b| ==> IsSpace(b[i])
    ensures Split(b) == []
  {
    assert LStrip(b) == [];
  }

  /** Whitespace after `a` adds no word. */
  lemma SplitTrailing(a: string, b: string)
    requires forall i :: 0 <= i < |b| ==> IsSpace(b[i])
    ensures Split(a + b) == Split(a)
  {
    if b == [] {
      assert a + b == a;
    } else {
      assert a + b == a + [b[0]] + b[1..];
      SplitSpaced(a, b[0], b[1..]);
      SplitOfSpaces(b[1..]);
      assert Split(a) + [] == Split(a);
    }
  }

  /** `s.strip().split() == s.split()`. */
  lemma SplitStrip(s: string)
    ensures Split(Strip(s)) == Split(s)
  {
    var l := LStrip(s);
    SplitLStrip(s);
    SplitRStrip(l);
    assert Strip(s) == RStrip(l);
  }

  /** `s.lstrip().split() == s.split()`. */
  lemma SplitLStrip(s: string)
    ensures Split(LStrip(s)) == Split(s)
  {
    var l := LStrip(s);
    var p := s[..|s| - |l|];
    assert forall i :: 0 <= i < |p| ==> IsSpace(p[i]);
    assert p + l == s;
    LStripSpaces(p, l);
  }

  /** `s.rstrip().split() == s.split()`. */
  lemma SplitRStrip(s: string)
    ensures Split(RStrip(s)) == Split(s)
  {
    var r := RStrip(s);
    var b := s[|r|..];
    assert forall i :: 0 <= i < |b| ==> IsSpace(b[i]);
    assert r + b == s;
    SplitTrailing(r, b);
  }

  /** `' '.join(words)`. */
  function JoinSpaced(words: seq<string>): string
    decreases |words|
  {
    if words == [] then [] else if |words| == 1 then words[0] else words[0] + " " + JoinSpaced(words[1..])
  }

  /** No whitespace at either end, as `str.strip` leaves a string. */
  predicate IsStripped(s: string) {
    s == [] || (!IsSpace(s[0]) && !IsSpace(s[|s| - 1]))
  }

  /** The position of the first `c` in `s`. */
  function IndexOfChar(s: string, c: char): (i: nat)
    requires c in s
    ensures i < |s| && s[i] == c
    ensures forall j :: 0 <= j < i ==> s[j] != c
    decreases |s|
  {
    if s[0] == c then 0 else 1 + IndexOfChar(s[1..], c)
  }

  /** `list(set(xs))`. Python leaves the order of the result unspecified;
      here each string stays where it first occurs. */
  function Distinct(xs: seq<string>): (r: seq<string>)
    ensures forall x :: x in r <==> x in xs
    ensures forall i, j :: 0 <= i < j < |r| ==> r[i] != r[j]
    ensures |r| <= |xs|
    decreases |xs|
  {
    if xs == [] then []
    else
      var init := xs[..|xs| - 1];
      var rest := Distinct(init);
      assert forall x :: x in xs <==> x in init || x == xs[|xs| - 1];
      if xs[|xs| - 1] in rest then rest else rest + [xs[|xs| - 1]]
  }

  /** The one-element list `[x]` when `b` holds, else the empty list. */
  function Maybe(b: bool, x: string): (r: seq<string>)
    ensures |r| <= 1
    ensures forall a :: a in r <==> b && a == x
  {
    if b then [x] else []
  }

  /** Membership in a list and up to four optional elements. */
  lemma InMaybes(a: string, x0: string, b1: bool, x1: string, b2: bool, x2: string,
                 b3: bool, x3: string, b4: bool, x4: string)
    ensures a in [x0] + Maybe(b1, x1) + Maybe(b2, x2) + Maybe(b3, x3) + Maybe(b4, x4) <==>
      a == x0 || (b1 && a == x1) || (b2 && a == x2) || (b3 && a == x3) || (b4 && a == x4)
  {
  }

  /** The same with a list of further elements after the first optional one. */
  lemma InMaybesWith(a: string, x0: string, b1: bool, x1: string, ys: seq<string>, b2: bool, x2: string,
                     b3: bool, x3: string, b4: bool, x4: string)
    ensures a in [x0] + Maybe(b1, x1) + ys + Maybe(b2, x2) + Maybe(b3, x3) + Maybe(b4, x4) <==>
      a == x0 || (b1 && a == x1) || a in ys || (b2 && a == x2) || (b3 && a == x3) || (b4 && a == x4)
  {
  }

  /** `s.replace(pattern, replacement)`: leftmost, non-overlapping
      occurrences. When `pattern` does not occur, `s` comes back unchanged. */
  function Replace(s: string, pattern: string, replacement: string): (r: string)
    requires pattern != []
    ensures !Contains(s, pattern) ==> r == s
    decreases |s|
  {
    if |s| < |pattern| then s
    else if s[..|pattern|] == pattern then replacement + Replace(s[|pattern|..], pattern, replacement)
    else
      assert [s[0]] + s[1..] == s;
      [s[0]] + Replace(s[1..], pattern, replacement)
  }

  /** The first occurrence is replaced and the scan goes on after it: text
      before the first occurrence is kept, and an occurrence that overlaps
      a replaced one is not replaced. */
  lemma {:induction false} ReplaceFirst(a: string, p: string, rep: string, b: string)
    requires p != []
    requires forall i :: 0 <= i < |a| ==> !OccursAt(a + p + b, p, i)
    ensures Replace(a + p + b, p, rep) == a + rep + Replace(b, p, rep)
    decreases |a|
  {
    var x := a + p + b;
    if a == [] {
      assert x == p + b && OccursAt(x, p, 0) && x[|p|..] == b;
      ReplaceHit(x, p, rep);
    } else {
      var y := a[1..] + p + b;
      assert x[1..] == y;
      assert Replace(x, p, rep) == [a[0]] + Replace(y, p, rep) by {
        assert !OccursAt(x, p, 0);
        ReplaceSkip(x, p, rep);
      }
      NoOccurrenceShift(a, p, b);
      ReplaceFirst(a[1..], p, rep, b);
      ConsRest(a, rep, Replace(b, p, rep));
    }
  }

  /** Putting the first character back in front of the rest. */
  lemma ConsFront(a: string, t: string)
    requires a != []
    ensures [a[0]] + (a[1..] + t) == a + t
  {
    assert [a[0]] + a[1..] == a;
  }

  /** The same before two further parts. */
  lemma ConsRest(a: string, u: string, t: string)
    requires a != []
    ensures [a[0]] + (a[1..] + u + t) == a + u + t
  {
    assert [a[0]] + a[1..] == a;
  }

  /** Where `p` starts, `Replace` puts `rep` in its place and goes on after it. */
  lemma ReplaceHit(x: string, p: string, rep: string)
    requires p != [] && OccursAt(x, p, 0)
    ensures Replace(x, p, rep) == rep + Replace(x[|p|..], p, rep)
  {
  }

  /** Where `p` does not start, `Replace` keeps the first character. */
  lemma ReplaceSkip(x: string, p: string, rep: string)
    requires p != [] && x != [] && !OccursAt(x, p, 0)
    ensures Replace(x, p, rep) == [x[0]] + Replace(x[1..], p, rep)
  {
  }

  /** No occurrence in the first `|a|` positions of `a + p + b` means none in
      the first `|a| - 1` positions once the first character is dropped. */
  lemma NoOccurrenceShift(a: string, p: string, b: string)
    requires a != []
    requires forall i :: 0 <= i < |a| ==> !OccursAt(a + p + b, p, i)
    ensures forall i :: 0 <= i < |a| - 1 ==> !OccursAt(a[1..] + p + b, p, i)
  {
    var x := a + p + b;
    assert x[1..] == a[1..] + p + b;
    forall i | 0 <= i < |a| - 1
      ensures !OccursAt(a[1..] + p + b, p, i)
    {
      assert !OccursAt(x, p, i + 1);
      assert x[1..][i..i + |p|] == x[i + 1..i + 1 + |p|];
    }
  }
}
