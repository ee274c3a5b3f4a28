/** Python string operations used by the core, written out on `seq<char>`:
    `str.isspace`, `str.lower` (Latin and Cyrillic letters), `str.strip()`,
    `str.strip(chars)`, `str.split()`, `" ".join`, the `in` substring test,
    `str.replace(pat, '')`, `re.sub(r'\s+', ' ', ...)` and `str(int)`. */
module Text {

  /** Python's `str.isspace()` (and the `\s` class of `re` on `str` patterns). */
  predicate IsSpace(c: char) {
    c == ' ' || ('\t' <= c <= '\r') || ('\U{1c}' <= c <= '\U{1f}') ||
    c == '\U{85}' || c == '\U{a0}' || c == '\U{1680}' || ('\U{2000}' <= c <= '\U{200a}') ||
    c == '\U{2028}' || c == '\U{2029}' || c == '\U{202f}' || c == '\U{205f}' || c == '\U{3000}'
  }

  predicate NoSpace(s: string) {
    forall i :: 0 <= i < |s| ==> !IsSpace(s[i])
  }

  /** `str.lower()` on one character: ASCII `A-Z`, Cyrillic `А-Я` and `Ѐ-Џ`
      (which includes `Ё`) map to their lower-case letters; every other
      character is left as it is. */
  function LowerChar(c: char): (r: char)
    ensures IsSpace(r) <==> IsSpace(c)
  {
    if 'A' <= c <= 'Z' then (c as int + 32) as char
    else if 'А' <= c <= 'Я' then (c as int + 32) as char
    else if 'Ѐ' <= c <= 'Џ' then (c as int + 80) as char
    else c
  }

  function Lower(s: string): (r: string)
    ensures |r| == |s|
    ensures forall i :: 0 <= i < |s| ==> r[i] == LowerChar(s[i])
  {
    if s == [] then [] else [LowerChar(s[0])] + Lower(s[1..])
  }

  lemma {:induction false} LowerIdempotent(s: string)
    ensures Lower(Lower(s)) == Lower(s)
  {
    var l := Lower(s);
    assert forall i :: 0 <= i < |l| ==> LowerChar(l[i]) == l[i];
  }

  /** Drops the characters satisfying `drop` from the front. */
  function TrimStart(s: string, drop: char -> bool): (r: string)
    ensures |r| <= |s| && r == s[|s| - |r|..]
    ensures r == [] || !drop(r[0])
    ensures forall i :: 0 <= i < |s| - |r| ==> drop(s[i])
  {
    if s != [] && drop(s[0]) then TrimStart(s[1..], drop) else s
  }

  /** Drops the characters satisfying `drop` from the back. */
  function TrimEnd(s: string, drop: char -> bool): (r: string)
    ensures |r| <= |s| && r == s[..|r|]
    ensures r == [] || !drop(r[|r| - 1])
    ensures forall i :: |r| <= i < |s| ==> drop(s[i])
  {
    if s != [] && drop(s[|s| - 1]) then TrimEnd(s[..|s| - 1], drop) else s
  }

  /** Python `s.strip(chars)` with the characters given as a predicate. */
  function Trim(s: string, drop: char -> bool): string {
    TrimEnd(TrimStart(s, drop), drop)
  }

  /** Python `s.strip()`. */
  function Strip(s: string): string {
    Trim(s, IsSpace)
  }

  predicate NoOuterSpace(s: string) {
    s == [] || (!IsSpace(s[0]) && !IsSpace(s[|s| - 1]))
  }

  /** `Trim` leaves a string that neither starts nor ends with a dropped character. */
  lemma TrimEnds(s: string, drop: char -> bool)
    ensures var r := Trim(s, drop); r == [] || (!drop(r[0]) && !drop(r[|r| - 1]))
  {
    var t := TrimStart(s, drop);
    var r := TrimEnd(t, drop);
    if r != [] {
      assert r[0] == t[0];
    }
  }

  /** What `Trim` keeps is a piece of the original. */
  lemma TrimInside(s: string, drop: char -> bool)
    ensures forall c :: c in Trim(s, drop) ==> c in s
  {
    var t := TrimStart(s, drop);
    assert forall c :: c in t ==> c in s;
  }

  lemma StripNoOuterSpace(s: string)
    ensures NoOuterSpace(Strip(s))
  {
    TrimEnds(s, IsSpace);
  }

  /** A string that neither starts nor ends with whitespace is its own strip. */
  lemma StripOfStripped(s: string)
    requires NoOuterSpace(s)
    ensures Strip(s) == s
  {
  }

  /** The longest prefix of `s` without whitespace. */
  function TakeWord(s: string): (w: string)
    ensures w <= s && NoSpace(w)
    ensures |w| < |s| ==> IsSpace(s[|w|])
  {
    if s == [] || IsSpace(s[0]) then [] else [s[0]] + TakeWord(s[1..])
  }

  /** Python `s.split()`: the maximal runs of non-whitespace characters. */
  function Words(s: string): (ws: seq<string>)
    ensures forall k :: 0 <= k < |ws| ==> ws[k] != [] && NoSpace(ws[k])
    decreases |s|
  {
    if s == [] then []
    else if IsSpace(s[0]) then Words(s[1..])
    else
      var w := TakeWord(s);
      [w] + Words(s[|w|..])
  }

  /** Python `" ".join(ws)`. */
  function Join(ws: seq<string>): string {
    if ws == [] then ""
    else if |ws| == 1 then ws[0]
    else ws[0] + " " + Join(ws[1..])
  }

  /** Splitting what `Join` built from non-empty, whitespace-free words gives
      the words back. */
  lemma {:induction false} WordsOfJoin(ws: seq<string>)
    requires forall k :: 0 <= k < |ws| ==> ws[k] != [] && NoSpace(ws[k])
    ensures Words(Join(ws)) == ws
    decreases |ws|
  {
    if ws == [] {
    } else if |ws| == 1 {
      WordsOfWord(ws[0], "");
      assert ws[0] + "" == ws[0];
    } else {
      var rest := Join(ws[1..]);
      assert Join(ws) == ws[0] + (" " + rest);
      WordsOfJoin(ws[1..]);
      WordsOfWord(ws[0], " " + rest);
      WordsAfterSpace(rest);
    }
  }

  lemma WordsAfterSpace(t: string)
    ensures Words(" " + t) == Words(t)
  {
    assert (" " + t)[1..] == t;
  }

  /** A word followed by whitespace (or nothing) is split off as a whole. */
  lemma {:induction false} WordsOfWord(w: string, t: string)
    requires w != [] && NoSpace(w)
    requires t == [] || IsSpace(t[0])
    ensures Words(w + t) == [w] + Words(t)
  {
    TakeWordOfWord(w, t);
    assert (w + t)[|w|..] == t;
  }

  lemma {:induction false} TakeWordOfWord(w: string, t: string)
    requires NoSpace(w)
    requires t == [] || IsSpace(t[0])
    ensures TakeWord(w + t) == w
    decreases |w|
  {
    if w != [] {
      TakeWordOfWord(w[1..], t);
      assert (w + t)[1..] == w[1..] + t;
    }
  }

  /** A string built by `Join` from non-empty, whitespace-free words has only
      single spaces between words and none at either end. */
  lemma {:induction false} JoinShape(ws: seq<string>)
    requires forall k :: 0 <= k < |ws| ==> ws[k] != [] && NoSpace(ws[k])
    ensures NoOuterSpace(Join(ws))
    ensures SingleSpaced(Join(ws))
    decreases |ws|
  {
    if |ws| > 1 {
      JoinShape(ws[1..]);
      var rest := Join(ws[1..]);
      var r := ws[0] + " " + rest;
      assert rest != [] by { JoinNonEmpty(ws[1..]); }
      assert forall i :: 0 <= i < |ws[0]| ==> r[i] == ws[0][i];
      assert forall i :: |ws[0]| < i < |r| ==> r[i] == rest[i - |ws[0]| - 1];
    }
  }

  lemma {:induction false} JoinNonEmpty(ws: seq<string>)
    requires ws != [] && ws[0] != []
    ensures Join(ws) != []
  {
  }

  /** Every whitespace character is a single `' '` with non-whitespace on both
      sides (so no two whitespace characters are adjacent). */
  predicate SingleSpaced(s: string) {
    forall i :: 0 <= i < |s| && IsSpace(s[i]) ==>
      s[i] == ' ' && 0 < i < |s| - 1 && !IsSpace(s[i - 1]) && !IsSpace(s[i + 1])
  }

  /** Python `k in t` for strings: `k` occurs as a contiguous substring of `t`. */
  predicate IsSubstring(k: string, t: string)
    decreases |t|
  {
    k <= t || (t != [] && IsSubstring(k, t[1..]))
  }

  /** Python `s.replace(pat, '')`: occurrences are removed scanning left to
      right, without looking again at text that the removal brings together. */
  function RemoveAll(s: string, pat: string): (r: string)
    requires pat != []
    ensures |r| <= |s|
    decreases |s|
  {
    if s == [] then []
    else if pat <= s then RemoveAll(s[|pat|..], pat)
    else [s[0]] + RemoveAll(s[1..], pat)
  }

  /** Removing a one-character pattern leaves no occurrence of that character,
      and keeps every other character in order. */
  lemma {:induction false} RemoveCharGone(s: string, c: char)
    ensures c !in RemoveAll(s, [c])
    ensures forall d :: d != c ==> (d in RemoveAll(s, [c]) <==> d in s)
    decreases |s|
  {
    if s != [] {
      RemoveCharGone(s[1..], c);
      assert [c] <= s <==> s[0] == c;
      assert s == [s[0]] + s[1..];
    }
  }

  /** `re.sub(r'\s+', ' ', s)`: every maximal run of whitespace becomes one space. */
  function CollapseSpaces(s: string): (r: string)
    ensures |r| <= |s|
    decreases |s|
  {
    if s == [] then []
    else if IsSpace(s[0]) then " " + CollapseSpaces(TrimStart(s, IsSpace))
    else [s[0]] + CollapseSpaces(s[1..])
  }

  /** Facts about `CollapseSpaces` needed to show it leaves a single-spaced string:
      it starts with a space exactly when `s` does, it is empty exactly when `s`
      is, and it ends with whitespace exactly when `s` does. */
  lemma {:induction false} CollapseEnds(s: string)
    ensures var r := CollapseSpaces(s);
      (r == [] <==> s == []) &&
      (r != [] ==> (IsSpace(r[0]) <==> IsSpace(s[0]))) &&
      (r != [] ==> (IsSpace(r[|r| - 1]) <==> IsSpace(s[|s| - 1])))
    decreases |s|
  {
    if s != [] {
      if IsSpace(s[0]) {
        var t := TrimStart(s, IsSpace);
        CollapseEnds(t);
        if t == [] {
          assert IsSpace(s[|s| - 1]);
        } else {
          assert t[|t| - 1] == s[|s| - 1];
        }
      } else {
        CollapseEnds(s[1..]);
        if s[1..] != [] {
          assert s[1..][|s[1..]| - 1] == s[|s| - 1];
        }
      }
    }
  }

  lemma {:induction false} CollapseSingleSpaced(s: string)
    ensures SingleSpacedInside(CollapseSpaces(s))
    decreases |s|
  {
    if s != [] {
      if IsSpace(s[0]) {
        var t := TrimStart(s, IsSpace);
        CollapseSingleSpaced(t);
        CollapseEnds(t);
        SpaceBeforeSingleSpaced(CollapseSpaces(t));
      } else {
        CollapseSingleSpaced(s[1..]);
        CharBeforeSingleSpaced(s[0], CollapseSpaces(s[1..]));
      }
    }
  }

  /** One space in front of a single-spaced string that starts with no
      whitespace keeps it single-spaced. */
  lemma SpaceBeforeSingleSpaced(rt: string)
    requires SingleSpacedInside(rt) && (rt != [] ==> !IsSpace(rt[0]))
    ensures SingleSpacedInside(" " + rt)
  {
    var r := " " + rt;
    forall i | 0 <= i < |r| && IsSpace(r[i])
      ensures r[i] == ' ' && (0 < i ==> !IsSpace(r[i - 1])) && (i < |r| - 1 ==> !IsSpace(r[i + 1]))
    {
      if i > 0 {
        assert r[i] == rt[i - 1];
      }
    }
  }

  /** A non-whitespace character in front keeps a string single-spaced. */
  lemma CharBeforeSingleSpaced(c: char, rt: string)
    requires SingleSpacedInside(rt) && !IsSpace(c)
    ensures SingleSpacedInside([c] + rt)
  {
    var r := [c] + rt;
    forall i | 0 <= i < |r| && IsSpace(r[i])
      ensures r[i] == ' ' && (0 < i ==> !IsSpace(r[i - 1])) && (i < |r| - 1 ==> !IsSpace(r[i + 1]))
    {
      assert r[i] == rt[i - 1];
    }
  }

  /** Like `SingleSpaced` but allowing a space at either end. */
  predicate SingleSpacedInside(s: string) {
    forall i :: 0 <= i < |s| && IsSpace(s[i]) ==>
      s[i] == ' ' && (0 < i ==> !IsSpace(s[i - 1])) && (i < |s| - 1 ==> !IsSpace(s[i + 1]))
  }

  /** Single spaces inside and none at the ends: single-spaced. */
  lemma SingleSpacedOfInside(s: string)
    requires SingleSpacedInside(s) && NoOuterSpace(s)
    ensures SingleSpaced(s)
  {
  }

  /** A single-spaced string is left unchanged by `CollapseSpaces`. */
  lemma {:induction false} CollapseOfSingleSpaced(s: string)
    requires SingleSpacedInside(s)
    ensures CollapseSpaces(s) == s
    decreases |s|
  {
    if s != [] {
      SingleSpacedTail(s);
      if IsSpace(s[0]) {
        SingleSpaceTrimmed(s);
      }
      CollapseOfSingleSpaced(s[1..]);
    }
  }

  /** Dropping the first character keeps a string single-spaced. */
  lemma SingleSpacedTail(s: string)
    requires s != [] && SingleSpacedInside(s)
    ensures SingleSpacedInside(s[1..])
  {
    var t := s[1..];
    forall i | 0 <= i < |t| && IsSpace(t[i])
      ensures t[i] == ' ' && (0 < i ==> !IsSpace(t[i - 1])) && (i < |t| - 1 ==> !IsSpace(t[i + 1]))
    {
      assert t[i] == s[i + 1];
    }
  }

  /** In a single-spaced string a leading space is alone: trimming the
      leading whitespace drops just that one space. */
  lemma SingleSpaceTrimmed(s: string)
    requires s != [] && SingleSpacedInside(s) && IsSpace(s[0])
    ensures s[0] == ' ' && TrimStart(s, IsSpace) == s[1..]
  {
    if |s| > 1 {
      assert !IsSpace(s[1]);
    }
  }

  /** Python `str(n)` for an integer. */
  function Decimal(n: int): (r: string)
    ensures r != []
    decreases if n < 0 then -n + 1 else n
  {
    if n < 0 then "-" + Decimal(-n)
    else if n < 10 then [(('0' as int) + n) as char]
    else Decimal(n / 10) + [(('0' as int) + n % 10) as char]
  }

  predicate IsDigit(c: char) {
    '0' <= c <= '9'
  }

  /** The number a string of decimal digits denotes. */
  function DigitsValue(s: string): (v: nat)
    requires forall i :: 0 <= i < |s| ==> IsDigit(s[i])
    decreases |s|
  {
    if s == [] then 0
    else
      assert IsDigit(s[|s| - 1]);
      DigitsValue(s[..|s| - 1]) * 10 + (s[|s| - 1] as int - '0' as int)
  }

  /** A non-negative number prints as decimal digits with no leading zero
      (except `0` itself), and those digits denote the number again. */
  lemma {:induction false} DecimalDigits(n: int)
    requires n >= 0
    ensures forall i :: 0 <= i < |Decimal(n)| ==> IsDigit(Decimal(n)[i])
    ensures Decimal(n)[0] == '0' <==> n == 0
    ensures DigitsValue(Decimal(n)) == n
    decreases n
  {
    if n >= 10 {
      DecimalDigits(n / 10);
      var d := Decimal(n);
      var head := Decimal(n / 10);
      assert d == head + [(('0' as int) + n % 10) as char];
      assert d[0] == head[0];
      assert d[..|d| - 1] == head;
    }
  }
}
