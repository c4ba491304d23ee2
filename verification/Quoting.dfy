/** In-place quoting for the generated completions and documentation. The
    loops that insert into the string they scan equal character maps. */
module Quoting {

  // std::string's find_last_of from position `from` down; -1 stands for npos.
  method FindLastOf(s: string, c: char, from: int) returns (idx: int)
    requires from < |s|
    ensures -1 <= idx && (from >= 0 ==> idx <= from) && (from < 0 ==> idx == -1)
    ensures idx >= 0 ==> s[idx] == c
    ensures forall i :: idx < i <= from ==> s[i] != c
  {
    idx := if from < 0 then -1 else from;
    while idx >= 0 && s[idx] != c
      invariant -1 <= idx <= from || (from < 0 && idx == -1)
      invariant forall i :: idx < i <= from ==> s[i] != c
    {
      idx := idx - 1;
    }
  }

  method FindFirstOf(s: string, c: char) returns (p: nat)
    ensures p <= |s| && (p < |s| ==> s[p] == c) && forall i :: 0 <= i < p ==> s[i] != c
  {
    p := 0;
    while p < |s| && s[p] != c
      invariant p <= |s| && forall i :: 0 <= i < p ==> s[i] != c
    {
      p := p + 1;
    }
  }

  // Every c becomes x, every other character stays.
  function MapChar(s: string, c: char, x: string): string {
    if s == "" then "" else (if s[0] == c then x else [s[0]]) + MapChar(s[1..], c, x)
  }

  // What zsh must see for one character.
  function QuotedChar(c: char): string {
    if c == ':' then "\\:" else if c == '\'' then "'\\''" else [c]
  }

  function Quoted(s: string): string {
    if s == "" then "" else QuotedChar(s[0]) + Quoted(s[1..])
  }

  lemma {:induction false} MapCharAppend(s: string, t: string, c: char, x: string)
    ensures MapChar(s + t, c, x) == MapChar(s, c, x) + MapChar(t, c, x)
  {
    if s == "" {
      assert s + t == t;
    } else {
      assert (s + t)[1..] == s[1..] + t;
      MapCharAppend(s[1..], t, c, x);
    }
  }

  lemma {:induction false} MapCharAbsent(s: string, c: char, x: string)
    requires c !in s
    ensures MapChar(s, c, x) == s
  {
    if s == "" {
    } else {
      MapCharAbsent(s[1..], c, x);
    }
  }

  // The character before a part already mapped.
  lemma MapCharFrom(s: string, c: char, x: string, k: nat)
    requires k < |s|
    ensures MapChar(s[k..], c, x) == (if s[k] == c then x else [s[k]]) + MapChar(s[k + 1..], c, x)
  {
    assert s[k..][1..] == s[k + 1..];
  }

  /** The two passes of quoteSpecialChars are one character map. */
  lemma {:induction false} TwoPasses(s: string)
    ensures MapChar(MapChar(s, ':', "\\:"), '\'', "'\\''") == Quoted(s)
  {
    if s == "" {
    } else {
      var first := if s[0] == ':' then "\\:" else [s[0]];
      TwoPasses(s[1..]);
      MapCharAppend(first, MapChar(s[1..], ':', "\\:"), '\'', "'\\''");
      OneCharacter(s[0]);
    }
  }

  lemma MapOne(d: char, c: char, x: string)
    ensures MapChar([d], c, x) == if d == c then x else [d]
  {
    assert [d][1..] == "";
  }

  lemma OneCharacter(c: char)
    ensures MapChar(if c == ':' then "\\:" else [c], '\'', "'\\''") == QuotedChar(c)
  {
    if c == ':' {
      assert "\\:" == "\\" + ":";
      MapCharAppend("\\", ":", '\'', "'\\''");
      MapOne('\\', '\'', "'\\''");
      MapOne(':', '\'', "'\\''");
    } else {
      MapOne(c, '\'', "'\\''");
    }
  }

  function Count(s: string, c: char): nat {
    if s == "" then 0 else (if s[0] == c then 1 else 0) + Count(s[1..], c)
  }

  /** Each colon costs one more character and each quote three. */
  lemma {:induction false} QuotedLength(s: string)
    ensures |Quoted(s)| == |s| + Count(s, ':') + 3 * Count(s, '\'')
  {
    if s == "" {
    } else {
      QuotedLength(s[1..]);
    }
  }

  // Reads quoted text back.
  function Unquoted(t: string): string {
    if t == "" then ""
    else if |t| > 1 && t[0] == '\\' && t[1] == ':' then ":" + Unquoted(t[2..])
    else if |t| > 3 && t[0] == '\'' && t[1] == '\\' && t[2] == '\'' && t[3] == '\'' then "'" + Unquoted(t[4..])
    else [t[0]] + Unquoted(t[1..])
  }

  // Reading back one quoted character, before text that does not begin with a colon.
  lemma UnquotedChar(c: char, rest: string)
    requires rest != "" ==> rest[0] != ':'
    ensures Unquoted(QuotedChar(c) + rest) == [c] + Unquoted(rest)
  {
    var t := QuotedChar(c) + rest;
    assert t[|QuotedChar(c)|..] == rest;
    assert forall i :: 0 <= i < |QuotedChar(c)| ==> t[i] == QuotedChar(c)[i];
  }

  /** Nothing is lost: quoting has a left inverse. */
  lemma {:induction false} UnquotedQuoted(s: string)
    ensures Unquoted(Quoted(s)) == s
  {
    if s == "" {
    } else {
      var rest := Quoted(s[1..]);
      UnquotedQuoted(s[1..]);
      assert rest != "" ==> rest[0] == QuotedChar(s[1])[0] != ':';
      UnquotedChar(s[0], rest);
    }
  }

  // The string in the middle of a pass: mapped from position k on, and idx is
  // the last c before that, or -1.
  ghost predicate Midway(s: string, r: string, c: char, x: string, k: nat, idx: int) {
    && k <= |s| && r == s[..k] + MapChar(s[k..], c, x)
    && -1 <= idx < |s| && (idx >= 0 ==> idx < k && s[idx] == c)
    && (forall i :: idx < i < k ==> s[i] != c)
  }

  // Characters that are not c lie between idx and k, so the map may start after idx.
  lemma MapTail(s: string, c: char, x: string, idx: int, k: nat)
    requires 0 <= idx < k <= |s| && s[idx] == c && forall i :: idx < i < k ==> s[i] != c
    ensures s[..k] + MapChar(s[k..], c, x) == s[..idx] + ([c] + MapChar(s[idx + 1..], c, x))
  {
    var middle, tail := s[idx + 1..k], s[k..];
    SplitAt(s, c, idx, k);
    MapCharAbsent(middle, c, x);
    MapCharAppend(middle, tail, c, x);
    Regroup(s[..idx], [c], middle, MapChar(tail, c, x));
  }

  lemma SplitAt(s: string, c: char, idx: int, k: nat)
    requires 0 <= idx < k <= |s| && s[idx] == c
    ensures s[idx + 1..] == s[idx + 1..k] + s[k..]
    ensures s[..k] == s[..idx] + [c] + s[idx + 1..k]
  {
  }

  lemma Regroup(a: string, b: string, c: string, d: string)
    ensures a + b + c + d == a + (b + (c + d))
  {
  }

  // One insertion in front of the last c moves the boundary to it.
  lemma Inserted(s: string, r: string, c: char, pre: string, k: nat, idx: int)
    requires Midway(s, r, c, pre + [c], k, idx) && idx >= 0
    ensures idx < |r|
    ensures r[..idx] + pre + r[idx..] == s[..idx] + MapChar(s[idx..], c, pre + [c])
  {
    MapTail(s, c, pre + [c], idx, k);
    MapCharFrom(s, c, pre + [c], idx);
    var rest := MapChar(s[idx + 1..], c, pre + [c]);
    Spliced(s[..idx], pre, [c] + rest);
    Regroup(s[..idx], pre, [c], rest);
    Assoc(pre, [c], rest);
  }

  lemma Assoc(a: string, b: string, c: string)
    ensures a + b + c == a + (b + c)
  {
  }

  // Inserting between two parts.
  lemma Spliced(a: string, pre: string, b: string)
    ensures (a + b)[..|a|] + pre + (a + b)[|a|..] == a + pre + b
  {
    assert (a + b)[..|a|] == a && (a + b)[|a|..] == b;
  }

  lemma PassDone(s: string, r: string, c: char, x: string, k: nat)
    requires Midway(s, r, c, x, k, -1)
    ensures r == MapChar(s, c, x)
  {
    MapCharAbsent(s[..k], c, x);
    MapCharAppend(s[..k], s[k..], c, x);
    assert s[..k] + s[k..] == s;
  }

  /** The colon pass: insertions from the back, one search each. */
  method EscapeColons(s: string) returns (r: string)
    ensures r == MapChar(s, ':', "\\:")
  {
    r := s;
    var idx := FindLastOf(r, ':', |r| - 1);
    ghost var k := |s|;
    assert s[..k] + MapChar(s[k..], ':', "\\:") == s && "\\" + [':'] == "\\:";
    while idx >= 0
      invariant Midway(s, r, ':', "\\:", k, idx)
      decreases idx
    {
      Inserted(s, r, ':', "\\", k, idx);
      r := r[..idx] + "\\" + r[idx..];
      k := idx;
      assert r[idx] == '\\' && forall i :: 0 <= i < k ==> r[i] == s[i];
      idx := FindLastOf(r, ':', idx);
    }
    PassDone(s, r, ':', "\\:", k);
  }

  /** The quote pass, which stops at the front instead of searching again. */
  method EscapeQuotes(s: string) returns (r: string)
    ensures r == MapChar(s, '\'', "'\\''")
  {
    r := s;
    var idx := FindLastOf(r, '\'', |r| - 1);
    ghost var k := |s|;
    assert s[..k] + MapChar(s[k..], '\'', "'\\''") == s && "'\\'" + ['\''] == "'\\''";
    while idx >= 0
      invariant Midway(s, r, '\'', "'\\''", k, idx)
      decreases idx
    {
      Inserted(s, r, '\'', "'\\'", k, idx);
      r := r[..idx] + "'\\'" + r[idx..];
      k := idx;
      assert forall i :: 0 <= i < k ==> r[i] == s[i];
      if idx == 0 {
        idx := -1;
      } else {
        idx := FindLastOf(r, '\'', idx - 1);
      }
    }
    PassDone(s, r, '\'', "'\\''", k);
  }

  method QuoteSpecialChars(s: string) returns (r: string)
    ensures r == Quoted(s)
  {
    r := EscapeColons(s);
    r := EscapeQuotes(r);
    TwoPasses(s);
  }

  // One turn of the substitution loop.
  function SubstituteOnce(s: string, p: nat, x: string): string
    requires p < |s|
  {
    s[..p] + x + s[p + 1..]
  }

  // The string after the first k characters have been dealt with; p is the
  // next c, or the end.
  ghost predicate Replaced(s: string, r: string, c: char, x: string, k: nat, p: nat) {
    && k <= |s| && r == MapChar(s[..k], c, x) + s[k..] && c !in MapChar(s[..k], c, x)
    && p <= |r| && (p < |r| ==> r[p] == c) && forall i :: 0 <= i < p ==> r[i] != c
  }

  // The c at p stands at position `at` of the original.
  lemma ReplacedAt(s: string, r: string, c: char, x: string, k: nat, p: nat) returns (at: nat)
    requires Replaced(s, r, c, x, k, p) && p < |r|
    ensures k <= at < |s| && s[at] == c && c !in s[k..at]
    ensures r[..p] == MapChar(s[..at], c, x) && r[p + 1..] == s[at + 1..]
  {
    var done := MapChar(s[..k], c, x);
    FirstInTail(done, s[k..], c, p);
    var n := p - |done|;
    at := k + n;
    assert s[k..][..n] == s[k..at] && s[k..][n + 1..] == s[at + 1..];
    MapCharAppend(s[..k], s[k..at], c, x);
    MapCharAbsent(s[k..at], c, x);
    assert s[..k] + s[k..at] == s[..at];
  }

  // The first c of a text whose beginning has none.
  lemma FirstInTail(done: string, rest: string, c: char, p: nat)
    requires c !in done && p < |done + rest| && (done + rest)[p] == c
    requires forall i :: 0 <= i < p ==> (done + rest)[i] != c
    ensures |done| <= p && rest[p - |done|] == c && c !in rest[..p - |done|]
    ensures (done + rest)[..p] == done + rest[..p - |done|]
    ensures (done + rest)[p + 1..] == rest[p - |done| + 1..]
  {
    assert forall i :: 0 <= i < |rest| ==> rest[i] == (done + rest)[i + |done|];
  }

  lemma OneMore(s: string, c: char, x: string, at: nat)
    requires at < |s| && s[at] == c
    ensures MapChar(s[..at + 1], c, x) == MapChar(s[..at], c, x) + x
  {
    MapCharAppend(s[..at], [c], c, x);
    MapOne(c, c, x);
    assert s[..at] + [c] == s[..at + 1];
  }

  // One turn of the loop deals with everything up to the c it replaces.
  lemma OneTurn(s: string, r: string, c: char, x: string, k: nat, p: nat) returns (next: nat)
    requires Replaced(s, r, c, x, k, p) && p < |r| && (c !in x || c !in s)
    ensures k < next <= |s|
    ensures SubstituteOnce(r, p, x) == MapChar(s[..next], c, x) + s[next..]
    ensures c !in MapChar(s[..next], c, x)
  {
    var at := ReplacedAt(s, r, c, x, k, p);
    OneMore(s, c, x, at);
    assert c !in r[..p];
    next := at + 1;
  }

  /** substituteSpecialChars: erase and insert at the first occurrence, again
      and again. It comes to an end unless the replacement brings the character
      back; then it has replaced each once. */
  method SubstituteSpecialChars(s: string, c: char, x: string) returns (r: string)
    requires c !in x || c !in s
    ensures r == MapChar(s, c, x)
  {
    r := s;
    var p: nat := FindFirstOf(r, c);
    ghost var k: nat := 0;
    while p < |r|
      invariant Replaced(s, r, c, x, k, p)
      decreases |s| - k
    {
      ghost var next: nat := OneTurn(s, r, c, x, k, p);
      r := SubstituteOnce(r, p, x);
      k := next;
      p := FindFirstOf(r, c);
    }
    AllReplaced(s, r, c, x, k, p);
  }

  lemma AllReplaced(s: string, r: string, c: char, x: string, k: nat, p: nat)
    requires Replaced(s, r, c, x, k, p) && p == |r|
    ensures r == MapChar(s, c, x)
  {
    NoneInTail(MapChar(s[..k], c, x), s[k..], c);
    MapCharAppend(s[..k], s[k..], c, x);
    MapCharAbsent(s[k..], c, x);
    assert s[..k] + s[k..] == s;
  }

  lemma NoneInTail(done: string, rest: string, c: char)
    requires forall i :: 0 <= i < |done + rest| ==> (done + rest)[i] != c
    ensures c !in rest
  {
    assert forall i :: 0 <= i < |rest| ==> rest[i] == (done + rest)[i + |done|];
  }

  /** Otherwise the character is never used up: every turn leaves one. */
  lemma SubstituteNeverEnds(s: string, c: char, x: string, p: nat)
    requires p < |s| && s[p] == c && c in x
    ensures c in SubstituteOnce(s, p, x)
  {
    var i :| 0 <= i < |x| && x[i] == c;
    assert SubstituteOnce(s, p, x)[p + i] == c;
  }

  method RemoveChar(s: string, c: char) returns (r: string)
    ensures r == MapChar(s, c, "") && c !in r
  {
    r := SubstituteSpecialChars(s, c, "");
    Removed(s, c);
  }

  lemma {:induction false} Removed(s: string, c: char)
    ensures c !in MapChar(s, c, "")
  {
    if s == "" {
    } else {
      Removed(s[1..], c);
    }
  }
}
