/**
 * The PHP string functions the extension relies on: `empty()` on strings, `trim()`,
 * `preg_replace('/\s+/', ' ', ...)`, `str_replace`, `strpos(...) !== false`,
 * `substr($s, 0, n)` and the decimal form of an integer.
 */
module PhpStrings {

  /** `empty($s)` for a string: only `""` and `"0"` are empty. */
  predicate IsEmptyString(s: string) {
    s == "" || s == "0"
  }

  /** The characters `trim()` strips by default: space, \t, \n, \r, \0 and \x0B. */
  predicate IsTrimChar(c: char) {
    c == ' ' || c == '\t' || c == '\n' || c == '\r' || c == '\0' || c == 11 as char
  }

  /** The characters PCRE's `\s` matches: space, \t, \n, \x0B, \x0C and \r. */
  predicate IsPcreSpace(c: char) {
    c == ' ' || c == '\t' || c == '\n' || c == 11 as char || c == 12 as char || c == '\r'
  }

  /** `ltrim()`: the longest suffix that does not start with a trim character. */
  function TrimStart(s: string): (r: string)
    ensures |r| <= |s| && r == s[|s| - |r|..]
    ensures forall i :: 0 <= i < |s| - |r| ==> IsTrimChar(s[i])
    ensures r != [] ==> !IsTrimChar(r[0])
  {
    if s != [] && IsTrimChar(s[0]) then TrimStart(s[1..]) else s
  }

  /** `rtrim()`: the longest prefix that does not end with a trim character. */
  function TrimEnd(s: string): (r: string)
    ensures |r| <= |s| && r == s[..|r|]
    ensures forall i :: |r| <= i < |s| ==> IsTrimChar(s[i])
    ensures r != [] ==> !IsTrimChar(r[|r| - 1])
  {
    if s != [] && IsTrimChar(s[|s| - 1]) then TrimEnd(s[..|s| - 1]) else s
  }

  /** `trim()`. */
  function Trim(s: string): string {
    TrimEnd(TrimStart(s))
  }

  /** A string that neither starts nor ends with a trim character. */
  predicate IsTrimmed(s: string) {
    s != [] ==> !IsTrimChar(s[0]) && !IsTrimChar(s[|s| - 1])
  }

  /** `trim()` cuts a run of trim characters off each end and keeps the middle intact. */
  lemma TrimIsTrimmedSlice(s: string)
    ensures IsTrimmed(Trim(s))
    ensures exists a, b :: 0 <= a <= b <= |s| && Trim(s) == s[a..b]
  {
    var t := TrimStart(s);
    var r := TrimEnd(t);
    assert r == s[|s| - |t|..][..|r|] == s[|s| - |t|..|s| - |t| + |r|];
    if r != [] {
      assert r[0] == t[0];
    }
  }

  /** `trim()` leaves an already trimmed string alone. */
  lemma TrimOfTrimmed(s: string)
    requires IsTrimmed(s)
    ensures Trim(s) == s
  {
  }

  /** `trim()` is idempotent. */
  lemma TrimIdempotent(s: string)
    ensures Trim(Trim(s)) == Trim(s)
  {
    TrimIsTrimmedSlice(s);
    TrimOfTrimmed(Trim(s));
  }

  /** `trim()` yields the empty string exactly for strings made only of trim characters. */
  lemma TrimBlank(s: string)
    ensures Trim(s) == [] <==> forall i :: 0 <= i < |s| ==> IsTrimChar(s[i])
  {
    if forall i :: 0 <= i < |s| ==> IsTrimChar(s[i]) {
      TrimStartBlank(s);
    }
  }

  lemma {:induction false} TrimStartBlank(s: string)
    requires forall i :: 0 <= i < |s| ==> IsTrimChar(s[i])
    ensures TrimStart(s) == []
  {
    if s != [] {
      assert IsTrimChar(s[0]);
      TrimStartBlank(s[1..]);
    }
  }

  /** The characters of `s` that `\s` does not match, in order. */
  function NonSpaces(s: string): string {
    if s == [] then []
    else (if IsPcreSpace(s[0]) then [] else [s[0]]) + NonSpaces(s[1..])
  }

  /** No two neighbouring `\s` characters. */
  predicate NoSpaceRun(s: string) {
    forall i :: 0 <= i < |s| - 1 ==> !(IsPcreSpace(s[i]) && IsPcreSpace(s[i + 1]))
  }

  /** Every `\s` character is a plain space. */
  predicate OnlyPlainSpaces(s: string) {
    forall i :: 0 <= i < |s| && IsPcreSpace(s[i]) ==> s[i] == ' '
  }

  /** The rest of `s` after its leading run of `\s` characters. */
  function DropSpaces(s: string): (r: string)
    ensures |r| <= |s| && r == s[|s| - |r|..]
    ensures r != [] ==> !IsPcreSpace(r[0])
    ensures NonSpaces(r) == NonSpaces(s)
  {
    if s != [] && IsPcreSpace(s[0]) then DropSpaces(s[1..]) else s
  }

  /** `preg_replace('/\s+/', ' ', $s)`: every maximal run of `\s` becomes one space. */
  function Collapse(s: string): (r: string)
    ensures NoSpaceRun(r) && OnlyPlainSpaces(r)
    ensures NonSpaces(r) == NonSpaces(s)
    ensures (r == []) == (s == [])
    ensures r != [] ==> (IsPcreSpace(r[0]) <==> IsPcreSpace(s[0]))
    decreases |s|
  {
    if s == [] then []
    else if IsPcreSpace(s[0]) then
      var rest := Collapse(DropSpaces(s[1..]));
      assert NonSpaces([' '] + rest) == NonSpaces(rest);
      [' '] + rest
    else
      var rest := Collapse(s[1..]);
      assert NonSpaces([s[0]] + rest) == [s[0]] + NonSpaces(rest);
      [s[0]] + rest
  }

  /** A run of `\s` characters, however long, becomes one space before what follows it. */
  lemma CollapseRun(run: string, t: string)
    requires run != [] && forall i :: 0 <= i < |run| ==> IsPcreSpace(run[i])
    requires t == [] || !IsPcreSpace(t[0])
    ensures Collapse(run + t) == " " + Collapse(t)
  {
    DropSpacesRun(run[1..], t);
    assert (run + t)[1..] == run[1..] + t;
  }

  /** The leading `\s` run of `run + t` is dropped whole. */
  lemma {:induction false} DropSpacesRun(run: string, t: string)
    requires forall i :: 0 <= i < |run| ==> IsPcreSpace(run[i])
    requires t == [] || !IsPcreSpace(t[0])
    ensures DropSpaces(run + t) == t
    decreases |run|
  {
    if run == [] {
      assert run + t == t;
    } else {
      assert (run + t)[1..] == run[1..] + t;
      DropSpacesRun(run[1..], t);
    }
  }

  /** Characters that `\s` does not match are copied through unchanged. */
  lemma {:induction false} CollapseWord(word: string, t: string)
    requires forall i :: 0 <= i < |word| ==> !IsPcreSpace(word[i])
    ensures Collapse(word + t) == word + Collapse(t)
    decreases |word|
  {
    if word == [] {
      assert word + t == t;
    } else {
      var s := word + t;
      assert s[0] == word[0] && !IsPcreSpace(s[0]);
      assert s[1..] == word[1..] + t;
      assert Collapse(s) == [word[0]] + Collapse(word[1..] + t);
      CollapseWord(word[1..], t);
      assert [word[0]] + (word[1..] + Collapse(t)) == ([word[0]] + word[1..]) + Collapse(t);
      assert [word[0]] + word[1..] == word;
    }
  }

  /** A string without runs whose only `\s` characters are plain spaces is a fixed point. */
  lemma {:induction false} CollapseFixesNormal(s: string)
    requires NoSpaceRun(s) && OnlyPlainSpaces(s)
    ensures Collapse(s) == s
    decreases |s|
  {
    if s != [] {
      var t := s[1..];
      assert NoSpaceRun(t) && OnlyPlainSpaces(t);
      if IsPcreSpace(s[0]) {
        assert t == [] || !IsPcreSpace(t[0]);
        assert DropSpaces(t) == t;
      }
      CollapseFixesNormal(t);
      assert s == [s[0]] + t;
    }
  }

  /** `substr($s, 0, $n)`: at most the first `n` characters. */
  function Prefix(s: string, n: nat): (r: string)
    ensures |r| <= n && r <= s
    ensures |s| <= n ==> r == s
    ensures |s| > n ==> |r| == n
  {
    if |s| <= n then s else s[..n]
  }

  /** `$p` occurs in `$s` at offset `i`. */
  predicate StartsAt(s: string, i: int, p: string) {
    0 <= i && i + |p| <= |s| && s[i..i + |p|] == p
  }

  /** `strpos($s, $p) !== false`. */
  predicate Contains(s: string, p: string) {
    exists i | 0 <= i <= |s| - |p| :: StartsAt(s, i, p)
  }

  /** `str_replace($from, $to, $s)`: left-to-right, non-overlapping replacement. */
  function ReplaceAll(s: string, from: string, to: string): string
    requires from != []
    decreases |s|
  {
    if |s| < |from| then s
    else if s[..|from|] == from then to + ReplaceAll(s[|from|..], from, to)
    else [s[0]] + ReplaceAll(s[1..], from, to)
  }

  /** A prefix at no offset of which `from` starts is copied through unchanged. */
  lemma {:induction false} ReplaceAllSkips(p: string, t: string, from: string, to: string)
    requires from != []
    requires forall i :: 0 <= i < |p| ==> !StartsAt(p + t, i, from)
    ensures ReplaceAll(p + t, from, to) == p + ReplaceAll(t, from, to)
    decreases |p|
  {
    if p != [] {
      var s := p + t;
      assert !StartsAt(s, 0, from);
      assert s[1..] == p[1..] + t;
      forall i | 0 <= i < |p[1..]|
        ensures !StartsAt(p[1..] + t, i, from)
      {
        assert !StartsAt(s, i + 1, from);
        assert (p[1..] + t)[i..] == s[i + 1..];
      }
      ReplaceAllSkips(p[1..], t, from, to);
      if |s| >= |from| {
        assert s[..|from|] != from;
        var rest := ReplaceAll(t, from, to);
        assert ReplaceAll(s, from, to) == [s[0]] + ReplaceAll(s[1..], from, to);
        assert s[0] == p[0];
        assert ReplaceAll(s[1..], from, to) == p[1..] + rest;
        assert [p[0]] + (p[1..] + rest) == ([p[0]] + p[1..]) + rest;
        assert [p[0]] + p[1..] == p;
      } else {
        assert ReplaceAll(t, from, to) == t;
        assert ReplaceAll(s, from, to) == s;
      }
    } else {
      assert p + t == t;
      assert p + ReplaceAll(t, from, to) == ReplaceAll(t, from, to);
    }
  }

  /** A string in which `from` never occurs comes back unchanged. */
  lemma ReplaceAllAbsent(s: string, from: string, to: string)
    requires from != [] && !Contains(s, from)
    ensures ReplaceAll(s, from, to) == s
  {
    forall i | 0 <= i < |s|
      ensures !StartsAt(s + [], i, from)
    {
      assert s + [] == s;
    }
    ReplaceAllSkips(s, [], from, to);
    assert s + [] == s;
  }

  /** An occurrence of `from` at the very start is replaced by `to`. */
  lemma ReplaceAllAtStart(t: string, from: string, to: string)
    requires from != []
    ensures ReplaceAll(from + t, from, to) == to + ReplaceAll(t, from, to)
  {
    assert (from + t)[..|from|] == from;
    assert (from + t)[|from|..] == t;
  }

  /** The number a string of decimal digits denotes, most significant digit first. */
  function DecimalValue(s: string): nat
    requires forall i :: 0 <= i < |s| ==> '0' <= s[i] <= '9'
  {
    if s == [] then 0 else 10 * DecimalValue(s[..|s| - 1]) + (s[|s| - 1] - '0') as nat
  }

  /** The decimal digits of a natural number. */
  function NatToDecimal(n: nat): (r: string)
    ensures |r| >= 1 && forall i :: 0 <= i < |r| ==> '0' <= r[i] <= '9'
  {
    var d := ['0' + ((n % 10) as char)];
    if n < 10 then d else NatToDecimal(n / 10) + d
  }

  /** The digits denote the number they were written for, with no leading zero. */
  lemma {:induction false} NatToDecimalValue(n: nat)
    ensures DecimalValue(NatToDecimal(n)) == n
    ensures NatToDecimal(n)[0] == '0' ==> n == 0
  {
    if n >= 10 {
      var r := NatToDecimal(n);
      NatToDecimalValue(n / 10);
      assert r == NatToDecimal(n / 10) + ['0' + ((n % 10) as char)];
      assert r[..|r| - 1] == NatToDecimal(n / 10);
      assert r[0] == NatToDecimal(n / 10)[0];
    }
  }

  /** `(string)$i`: the decimal form of an integer, with a leading `-` when negative. */
  function IntToDecimal(i: int): string {
    if i < 0 then "-" + NatToDecimal(-i) else NatToDecimal(i)
  }
}
