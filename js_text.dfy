/** The JavaScript string operations the server's text clean-up uses:
    `trim`, a global `replace` of a literal token optionally followed by a
    line feed, and `replace(/\s+/g, ' ')`. A `char` stands for one UTF-16
    code unit. */
module JsText {
  import opened Sequences

  /** The characters `\s` matches and `trim` removes: ECMAScript's
      WhiteSpace (tab, vertical tab, form feed, space, no-break space,
      the byte order mark and the Unicode space separators) and
      LineTerminator (line feed, carriage return, line and paragraph
      separator). */
  predicate IsWs(c: char)
  {
    c == '\t' || c == '\n' || c == '\U{B}' || c == '\U{C}' || c == '\r' || c == ' ' ||
    c == '\U{A0}' || c == '\U{1680}' || ('\U{2000}' <= c <= '\U{200A}') ||
    c == '\U{2028}' || c == '\U{2029}' || c == '\U{202F}' || c == '\U{205F}' ||
    c == '\U{3000}' || c == '\U{FEFF}'
  }

  predicate IsVisible(c: char)
  {
    !IsWs(c)
  }

  /** The text with every whitespace character deleted. */
  function Visible(s: string): string
  {
    Filter(s, IsVisible)
  }

  /** Leading whitespace removed: the result is a suffix of `s`, everything
      before it is whitespace, and it does not start with whitespace. */
  function TrimStart(s: string): (r: string)
    ensures |r| <= |s| && r == s[|s| - |r|..]
    ensures forall i :: 0 <= i < |s| - |r| ==> IsWs(s[i])
    ensures r == [] || !IsWs(r[0])
    ensures IsSubseq(r, s)
    decreases |s|
  {
    if s != [] && IsWs(s[0]) then TrimStart(s[1..]) else SubseqRefl(s); s
  }

  /** Trailing whitespace removed: the result is a prefix of `s`, everything
      after it is whitespace, and it does not end with whitespace. */
  function TrimEnd(s: string): (r: string)
    ensures |r| <= |s| && r == s[..|r|]
    ensures forall i :: |r| <= i < |s| ==> IsWs(s[i])
    ensures r == [] || !IsWs(r[|r| - 1])
    ensures IsSubseq(r, s)
    decreases |s|
  {
    if s != [] && IsWs(s[|s| - 1]) then
      var r := TrimEnd(s[..|s| - 1]);
      SliceIsSubseq(s, 0, |s| - 1);
      SubseqTransitive(r, s[..|s| - 1], s);
      r
    else
      SubseqRefl(s);
      s
  }

  /** `s.trim()`: no whitespace at either end of the result. */
  function Trim(s: string): (r: string)
    ensures |r| <= |s|
    ensures r == [] || (!IsWs(r[0]) && !IsWs(r[|r| - 1]))
    ensures CutFrom(s, r, |s| - |TrimStart(s)|)
    ensures IsSubseq(r, s)
  {
    var u := TrimStart(s);
    var r := TrimEnd(u);
    assert r != [] ==> r[0] == u[0];
    TrimCut(s, u, r);
    SubseqTransitive(r, u, s);
    r
  }

  /** `r` is the slice of `s` starting at `k`, and everything outside that
      slice is whitespace. */
  predicate CutFrom(s: string, r: string, k: nat)
  {
    && k + |r| <= |s| && r == s[k..k + |r|]
    && (forall i :: 0 <= i < k ==> IsWs(s[i]))
    && (forall i :: k + |r| <= i < |s| ==> IsWs(s[i]))
  }

  /** A whitespace-only cut from the end of a whitespace-only cut from the
      start is a cut from both ends. */
  lemma {:induction false} TrimCut(s: string, u: string, r: string)
    requires |u| <= |s| && u == s[|s| - |u|..]
    requires forall i :: 0 <= i < |s| - |u| ==> IsWs(s[i])
    requires |r| <= |u| && r == u[..|r|]
    requires forall i :: |r| <= i < |u| ==> IsWs(u[i])
    ensures CutFrom(s, r, |s| - |u|)
  {
    var k := |s| - |u|;
    assert s[k..k + |r|] == u[..|r|];
    forall i | k + |r| <= i < |s|
      ensures IsWs(s[i])
    {
      assert s[i] == u[i - k];
    }
  }

  /** Text without whitespace at either end is left alone. */
  lemma {:induction false} TrimIdentity(s: string)
    requires s == [] || (!IsWs(s[0]) && !IsWs(s[|s| - 1]))
    ensures Trim(s) == s
  {
  }

  /** `trim` drops only whitespace: the visible characters are unchanged. */
  lemma {:induction false} TrimKeepsVisible(s: string)
    ensures Visible(Trim(s)) == Visible(s)
  {
    TrimStartKeepsVisible(s);
    TrimEndKeepsVisible(TrimStart(s));
  }

  lemma {:induction false} TrimStartKeepsVisible(s: string)
    ensures Visible(TrimStart(s)) == Visible(s)
    decreases |s|
  {
    if s != [] && IsWs(s[0]) {
      TrimStartKeepsVisible(s[1..]);
    }
  }

  lemma {:induction false} TrimEndKeepsVisible(s: string)
    ensures Visible(TrimEnd(s)) == Visible(s)
    decreases |s|
  {
    if s != [] && IsWs(s[|s| - 1]) {
      var init := s[..|s| - 1];
      TrimEndKeepsVisible(init);
      assert s == init + [s[|s| - 1]];
      FilterConcat(init, [s[|s| - 1]], IsVisible);
      assert Visible([s[|s| - 1]]) == [];
    }
  }

  /** `pat` occurs in `s` at some position. */
  predicate HasSubstring(s: string, pat: string)
    decreases |s|
  {
    pat <= s || (s != [] && HasSubstring(s[1..], pat))
  }

  /** `s.replace(/TOKEN\n?/g, '')` for a literal token: scanning from the
      left, every occurrence of the token is deleted together with a line
      feed right after it; the scan resumes after what was deleted. */
  function StripToken(s: string, token: string): (r: string)
    requires token != []
    ensures IsSubseq(r, s)
    ensures Filter(r, OutsideToken(token)) == Filter(s, OutsideToken(token))
    decreases |s|
  {
    if s == [] then []
    else if token <= s then
      var rest := s[|token|..];
      var after := if rest != [] && rest[0] == '\n' then rest[1..] else rest;
      var r := StripToken(after, token);
      SubseqSkip(r, after, s);
      assert s == token + rest;
      FilterConcat(token, rest, OutsideToken(token));
      FilterNone(token, OutsideToken(token));
      assert rest != [] && rest[0] == '\n' ==> rest == [rest[0]] + after;
      r
    else
      [s[0]] + StripToken(s[1..], token)
  }

  /** The characters a match can never remove: those that are neither in
      the token nor a line feed. */
  function OutsideToken(token: string): char -> bool
  {
    (c: char) => c !in token && c != '\n'
  }

  /** A subsequence of a suffix is a subsequence of the whole. */
  lemma {:induction false} SubseqSkip(r: string, after: string, s: string)
    requires IsSubseq(r, after) && |after| <= |s| && after == s[|s| - |after|..]
    ensures IsSubseq(r, s)
  {
    SliceIsSubseq(s, |s| - |after|, |s|);
    assert s[|s| - |after|..|s|] == after;
    SubseqTransitive(r, after, s);
  }

  /** A stretch without the token's first character is kept whole and the
      scan goes on after it. */
  lemma {:induction false} StripTokenSkipsPlain(b: string, x: string, token: string)
    requires token != [] && forall i :: 0 <= i < |b| ==> b[i] != token[0]
    ensures StripToken(b + x, token) == b + StripToken(x, token)
    decreases |b|
  {
    if b != [] {
      var y := b[1..] + x;
      calc {
        StripToken(b + x, token);
        { assert b + x == [b[0]] + y; }
        StripToken([b[0]] + y, token);
        { StripTokenCons(b[0], y, token); }
        [b[0]] + StripToken(y, token);
        { StripTokenSkipsPlain(b[1..], x, token); }
        [b[0]] + (b[1..] + StripToken(x, token));
        { assert b == [b[0]] + b[1..]; }
        b + StripToken(x, token);
      }
    } else {
      assert b + x == x;
    }
  }

  /** A character that cannot start the token is kept. */
  lemma {:induction false} StripTokenCons(c: char, s: string, token: string)
    requires token != [] && c != token[0]
    ensures StripToken([c] + s, token) == [c] + StripToken(s, token)
  {
    var cs := [c] + s;
    assert cs[1..] == s;
    assert !(token <= cs) by {
      assert cs[0] != token[0];
    }
  }

  /** A token that does not occur is not removed. */
  lemma {:induction false} StripTokenAbsent(s: string, token: string)
    requires token != [] && !HasSubstring(s, token)
    ensures StripToken(s, token) == s
    decreases |s|
  {
    if s != [] {
      StripTokenAbsent(s[1..], token);
      assert s == [s[0]] + s[1..];
    }
  }

  /** The Markdown code fence. */
  const Fence := "```"

  function LeadingTicks(s: string): nat
  {
    if s != [] && s[0] == '`' then 1 + LeadingTicks(s[1..]) else 0
  }

  lemma {:induction false} FenceIsThreeTicks(s: string)
    ensures Fence <= s <==> LeadingTicks(s) >= 3
  {
    if |s| >= 1 && s[0] == '`' {
      if |s| >= 2 && s[1] == '`' {
        assert LeadingTicks(s) == 2 + LeadingTicks(s[2..]);
        if |s| >= 3 && s[2] == '`' {
          assert s[..3] == Fence;
        }
      }
    }
  }

  /** Removing every fence leaves none behind: a backtick the scan keeps is
      never followed by a removed fence, so no three kept backticks can
      end up next to each other. */
  lemma {:induction false} StripFenceLeavesNoFence(s: string)
    ensures !HasSubstring(StripToken(s, Fence), Fence)
    ensures LeadingTicks(s) < 3 ==> LeadingTicks(StripToken(s, Fence)) <= LeadingTicks(s)
    decreases |s|
  {
    if s != [] {
      FenceIsThreeTicks(s);
      if Fence <= s {
        var rest := s[3..];
        var after := if rest != [] && rest[0] == '\n' then rest[1..] else rest;
        StripFenceLeavesNoFence(after);
      } else {
        var t := StripToken(s[1..], Fence);
        var r := [s[0]] + t;
        StripFenceLeavesNoFence(s[1..]);
        assert r[1..] == t;
        FenceIsThreeTicks(r);
        if s[0] == '`' {
          assert LeadingTicks(s) == 1 + LeadingTicks(s[1..]);
        }
      }
    }
  }

  /** Two whitespace characters in a row start at position `i`. */
  predicate WsPairAt(s: string, i: nat)
    requires i + 1 < |s|
  {
    IsWs(s[i]) && IsWs(s[i + 1])
  }

  /** Every whitespace character is a space and no two of them are
      adjacent: what `replace(/\s+/g, ' ')` leaves. */
  predicate SingleSpaces(r: string)
  {
    && (forall i :: 0 <= i < |r| && IsWs(r[i]) ==> r[i] == ' ')
    && (forall i :: 0 <= i < |r| - 1 ==> !WsPairAt(r, i))
  }

  /** `s.replace(/\s+/g, ' ')`: every maximal run of whitespace becomes
      one space, and the visible characters stay as they were. */
  function CollapseWs(s: string): (r: string)
    ensures r == [] <==> s == []
    ensures r != [] ==> (IsWs(r[0]) <==> IsWs(s[0]))
    ensures r != [] ==> (IsWs(r[|r| - 1]) <==> IsWs(s[|s| - 1]))
    ensures SingleSpaces(r)
    ensures Visible(r) == Visible(s)
    decreases |s|
  {
    if s == [] then []
    else if IsWs(s[0]) then
      var rest := TrimStart(s);
      assert rest != s;
      var t := CollapseWs(rest);
      TrimStartKeepsVisible(s);
      ConsSingleSpaces(' ', t);
      assert ([' '] + t)[1..] == t;
      assert rest != [] ==> rest[|rest| - 1] == s[|s| - 1];
      [' '] + t
    else
      var t := CollapseWs(s[1..]);
      ConsSingleSpaces(s[0], t);
      [s[0]] + t
  }

  /** `replace(/\s+/g, ' ')` keeps the words apart and unchanged: each
      whitespace run becomes a separator, none is dropped and none added. */
  lemma {:induction false} CollapseWsKeepsWords(s: string)
    ensures Words(CollapseWs(s)) == Words(s)
    decreases |s|
  {
    if s != [] {
      var r := CollapseWs(s);
      if IsWs(s[0]) {
        var rest := TrimStart(s);
        CollapseWsKeepsWords(rest);
        WordsTrimStart(s);
        assert r[1..] == CollapseWs(rest);
      } else {
        var t := CollapseWs(s[1..]);
        CollapseWsKeepsWords(s[1..]);
        WordsConsVisible(s[0], t);
        WordsConsVisible(s[0], s[1..]);
        assert s == [s[0]] + s[1..];
      }
    }
  }

  /** The longest prefix without whitespace. */
  function VisibleRun(s: string): (w: string)
    ensures |w| <= |s| && w == s[..|w|]
    ensures forall i :: 0 <= i < |w| ==> !IsWs(w[i])
    ensures |w| < |s| ==> IsWs(s[|w|])
    decreases |s|
  {
    if s != [] && !IsWs(s[0]) then [s[0]] + VisibleRun(s[1..]) else []
  }

  /** The words of `s`: its maximal runs of non-whitespace, in order. */
  function Words(s: string): seq<string>
    decreases |s|
  {
    if s == [] then []
    else if IsWs(s[0]) then Words(s[1..])
    else
      var w := VisibleRun(s);
      [w] + Words(s[|w|..])
  }

  /** Leading whitespace separates no words. */
  lemma {:induction false} WordsTrimStart(s: string)
    ensures Words(TrimStart(s)) == Words(s)
    decreases |s|
  {
    if s != [] && IsWs(s[0]) {
      WordsTrimStart(s[1..]);
    }
  }

  /** A visible character in front of `t` joins `t`'s first word when `t`
      starts with one, and is a word of its own otherwise. */
  lemma {:induction false} WordsConsVisible(c: char, t: string)
    requires !IsWs(c)
    ensures t != [] && !IsWs(t[0]) ==>
      Words(t) != [] && Words([c] + t) == [[c] + Words(t)[0]] + Words(t)[1..]
    ensures t == [] || IsWs(t[0]) ==> Words([c] + t) == [[c]] + Words(t)
  {
    var s := [c] + t;
    assert s[1..] == t;
    var w := VisibleRun(t);
    assert VisibleRun(s) == [c] + w;
    assert s[|[c] + w|..] == t[|w|..];
  }

  /** A character in front of single-spaced text keeps it single-spaced
      when it is not whitespace, or a space before a visible character. */
  lemma {:induction false} ConsSingleSpaces(c: char, t: string)
    requires SingleSpaces(t)
    requires IsWs(c) ==> c == ' ' && (t == [] || !IsWs(t[0]))
    ensures SingleSpaces([c] + t)
    ensures Visible([c] + t) == (if IsWs(c) then [] else [c]) + Visible(t)
  {
    var r := [c] + t;
    assert r[1..] == t;
    assert forall i :: 1 <= i < |r| ==> r[i] == t[i - 1];
    assert forall i :: 1 <= i < |r| - 1 ==> WsPairAt(r, i) == WsPairAt(t, i - 1);
  }
}
