/** String helpers: trimming, splitting at a separator and joining. */
module Text {

  /** `isspace` in the C locale. */
  predicate IsSpace(c: char) {
    c == ' ' || 9 <= c as int <= 13
  }

  function TrimLeft(s: string): string {
    if s != "" && IsSpace(s[0]) then TrimLeft(s[1..]) else s
  }

  function TrimRight(s: string): (r: string)
    ensures r <= s
    ensures r == "" || !IsSpace(r[|r| - 1])
  {
    if s != "" && IsSpace(s[|s| - 1]) then TrimRight(s[..|s| - 1]) else s
  }

  function Trim(s: string): string {
    TrimRight(TrimLeft(s))
  }

  /** Trimming cuts off spaces at both ends and nothing else, as many as there are. */
  lemma TrimCuts(s: string) returns (i: nat, j: nat)
    ensures i <= j <= |s| && Trim(s) == s[i..j]
    ensures (forall k | 0 <= k < i || j <= k < |s| :: IsSpace(s[k]))
    ensures Trim(s) != "" ==> !IsSpace(Trim(s)[0]) && !IsSpace(Trim(s)[|Trim(s)| - 1])
  {
    i := TrimLeftCuts(s);
    j := TrimRightCuts(s[i..]);
    assert s[i..][..j] == s[i..i + j];
    forall k | 0 <= k < i || i + j <= k < |s| ensures IsSpace(s[k]) {
      if k >= i { assert s[k] == s[i..][k - i]; }
    }
    j := i + j;
  }

  lemma {:induction false} TrimLeftCuts(s: string) returns (i: nat)
    ensures i <= |s| && TrimLeft(s) == s[i..] && (forall k | 0 <= k < i :: IsSpace(s[k]))
    ensures TrimLeft(s) != "" ==> !IsSpace(TrimLeft(s)[0])
  {
    if s == "" || !IsSpace(s[0]) {
      i := 0;
    } else {
      i := TrimLeftCuts(s[1..]);
      forall k | 0 <= k < i + 1 ensures IsSpace(s[k]) {
        if k > 0 { assert s[k] == s[1..][k - 1]; }
      }
      i := i + 1;
    }
  }

  lemma {:induction false} TrimRightCuts(s: string) returns (j: nat)
    ensures j <= |s| && TrimRight(s) == s[..j] && (forall k | j <= k < |s| :: IsSpace(s[k]))
  {
    if s == "" || !IsSpace(s[|s| - 1]) {
      j := |s|;
    } else {
      j := TrimRightCuts(s[..|s| - 1]);
    }
  }

  /** The position of the first separator. */
  function Find(s: string, sep: char): (i: nat)
    requires sep in s
    ensures i < |s| && s[i] == sep && sep !in s[..i]
  {
    if s[0] == sep then 0
    else
      var i := Find(s[1..], sep);
      assert s[..i + 1] == [s[0]] + s[1..][..i];
      1 + i
  }

  /** The pieces of `s`: empty ones are dropped, except that the last is always there. */
  function Tokens(s: string, sep: char): (t: seq<string>)
    ensures |t| > 0
    decreases |s|
  {
    if sep !in s then [s]
    else
      var i := Find(s, sep);
      (if i == 0 then [] else [s[..i]]) + Tokens(s[i + 1..], sep)
  }

  function Split(s: string, sep: char): seq<string> {
    Tokens(Trim(s), sep)
  }

  function JoinFrom(output: string, pieces: seq<string>, sep: char): string
    decreases |pieces|
  {
    if pieces == [] then output
    else JoinFrom((if output == "" then "" else output + [sep]) + pieces[0], pieces[1..], sep)
  }

  function Join(pieces: seq<string>, sep: char): string {
    JoinFrom("", pieces, sep)
  }

  /** `Util::split`: cut off the front up to each separator in turn. */
  method SplitString(str: string, sep: char) returns (tokens: seq<string>)
    ensures tokens == Split(str, sep)
  {
    var s := Trim(str);
    tokens := [];
    while sep in s
      invariant tokens + Tokens(s, sep) == Split(str, sep)
      decreases |s|
    {
      var idx := Find(s, sep);
      var token := s[..idx];
      if token != "" {
        tokens := tokens + [token];
      }
      s := s[idx + 1..];
    }
    tokens := tokens + [s];
  }

  /** `Util::join`. */
  method JoinPieces(pieces: seq<string>, sep: char) returns (output: string)
    ensures output == Join(pieces, sep)
  {
    output := "";
    for i := 0 to |pieces|
      invariant JoinFrom(output, pieces[i..], sep) == Join(pieces, sep)
    {
      assert pieces[i..][1..] == pieces[i + 1..];
      if output != "" {
        output := output + [sep];
      }
      output := output + pieces[i];
    }
  }

  // ---- Joining what was split --------------------------------------------------------------------

  /** No separator in front and no two in a row. */
  predicate NoGaps(s: string, sep: char) {
    (s == "" || s[0] != sep) && forall i | 0 <= i < |s| - 1 :: !(s[i] == sep && s[i + 1] == sep)
  }

  lemma NoGapsAfter(s: string, sep: char)
    requires sep in s && Find(s, sep) > 0
    ensures NoGaps(s, sep) <==> NoGaps(s[Find(s, sep) + 1..], sep)
  {
    var i := Find(s, sep);
    var rest := s[i + 1..];
    assert forall k | 0 <= k < i :: s[k] == s[..i][k] && s[k] != sep;
    if NoGaps(rest, sep) {
      forall k | 0 <= k < |s| - 1 ensures !(s[k] == sep && s[k + 1] == sep) {
        if k > i { assert s[k] == rest[k - i - 1] && s[k + 1] == rest[k - i]; }
        if k == i && |rest| > 0 { assert rest[0] == s[k + 1]; }
      }
    }
    if NoGaps(s, sep) {
      forall k | 0 <= k < |rest| - 1 ensures !(rest[k] == sep && rest[k + 1] == sep) {
        assert rest[k] == s[k + i + 1] && rest[k + 1] == s[k + i + 2];
      }
      assert |rest| > 0 ==> rest[0] == s[i + 1];
    }
  }

  /** What is put in front of the next piece. */
  function Lead(output: string, sep: char): string {
    if output == "" then "" else output + [sep]
  }

  /** Tokens with a first separator cut off. */
  lemma TokensStep(s: string, sep: char)
    requires sep in s
    ensures var i := Find(s, sep);
            && s == s[..i] + [sep] + s[i + 1..]
            && Tokens(s, sep) == (if i == 0 then [] else [s[..i]]) + Tokens(s[i + 1..], sep)
  {
  }

  lemma JoinFromStep(output: string, piece: string, rest: seq<string>, sep: char)
    ensures JoinFrom(output, [piece] + rest, sep) == JoinFrom(Lead(output, sep) + piece, rest, sep)
  {
    assert ([piece] + rest)[1..] == rest;
  }

  /** What joining the tokens of a string does to it. */
  ghost predicate Joins(output: string, s: string, sep: char) {
    var r := JoinFrom(output, Tokens(s, sep), sep);
    && (NoGaps(s, sep) ==> r == Lead(output, sep) + s)
    && |r| <= |Lead(output, sep)| + |s|
    && (!NoGaps(s, sep) ==> |r| < |Lead(output, sep)| + |s|)
  }

  /** Joining the tokens of a gapless string restores it; otherwise separators are lost. */
  lemma {:induction false} JoinTokens(output: string, s: string, sep: char)
    ensures Joins(output, s, sep)
    decreases |s|
  {
    if sep !in s {
      JoinFromStep(output, s, [], sep);
      assert [s] + [] == [s] && NoGaps(s, sep);
    } else if Find(s, sep) == 0 {
      JoinTokens(output, s[1..], sep);
      JoinTokensGap(output, s, sep);
    } else {
      var i := Find(s, sep);
      JoinTokens(Lead(output, sep) + s[..i], s[i + 1..], sep);
      JoinTokensCut(output, s, sep);
    }
  }

  lemma JoinTokensGap(output: string, s: string, sep: char)
    requires sep in s && Find(s, sep) == 0 && Joins(output, s[1..], sep)
    ensures Joins(output, s, sep)
  {
    TokensStep(s, sep);
    assert [] + Tokens(s[1..], sep) == Tokens(s[1..], sep);
  }

  lemma JoinTokensCut(output: string, s: string, sep: char)
    requires sep in s && Find(s, sep) > 0
    requires Joins(Lead(output, sep) + s[..Find(s, sep)], s[Find(s, sep) + 1..], sep)
    ensures Joins(output, s, sep)
  {
    var i := Find(s, sep);
    var front, rest := s[..i], s[i + 1..];
    TokensStep(s, sep);
    JoinFromStep(output, front, Tokens(rest, sep), sep);
    NoGapsAfter(s, sep);
    Regroup(Lead(output, sep), front, rest, sep);
  }

  lemma Regroup(lead: string, front: string, rest: string, sep: char)
    ensures lead + (front + [sep] + rest) == ((lead + front) + [sep]) + rest
  {
  }

  lemma {:induction false} TrimLeftShortens(s: string)
    ensures |TrimLeft(s)| <= |s| && (|TrimLeft(s)| == |s| ==> TrimLeft(s) == s)
  {
    if s != "" && IsSpace(s[0]) { TrimLeftShortens(s[1..]); }
  }

  lemma TrimShortens(s: string)
    ensures |Trim(s)| <= |s| && (|Trim(s)| == |s| ==> Trim(s) == s)
  {
    TrimLeftShortens(s);
  }

  /** Splitting and joining is the identity exactly on trimmed strings without leading or doubled
      separators. */
  lemma JoinSplit(s: string, sep: char)
    ensures Join(Split(s, sep), sep) == s <==> Trim(s) == s && NoGaps(s, sep)
  {
    TrimShortens(s);
    JoinTokens("", Trim(s), sep);
    assert Lead("", sep) + Trim(s) == Trim(s);
  }

  // ---- The front of a string ---------------------------------------------------------------------

  lemma {:induction false} FindAfter(a: string, b: string, sep: char)
    requires sep !in a
    ensures var s := a + [sep] + b;
            sep in s && Find(s, sep) == |a| && s[..|a|] == a && s[|a| + 1..] == b
    decreases |a|
  {
    var s := a + [sep] + b;
    assert s[|a|] == sep;
    if a == "" {
    } else {
      assert a[0] != sep && s[0] == a[0] && s[1..] == a[1..] + [sep] + b;
      FindAfter(a[1..], b, sep);
    }
  }

  lemma FirstToken(a: string, b: string, sep: char)
    requires a != "" && sep !in a
    ensures Tokens(a + [sep] + b, sep) == [a] + Tokens(b, sep)
  {
    FindAfter(a, b, sep);
  }

  lemma {:induction false} TrimRightKeepsFront(p: string, w: string)
    requires p != "" && !IsSpace(p[|p| - 1])
    ensures TrimRight(p + w) == p + TrimRight(w)
    decreases |w|
  {
    if w == "" {
      assert p + w == p;
    } else if IsSpace(w[|w| - 1]) {
      assert (p + w)[..|p + w| - 1] == p + w[..|w| - 1];
      TrimRightKeepsFront(p, w[..|w| - 1]);
    }
  }

  lemma Assoc(x: string, y: string, z: string)
    ensures (x + y) + z == x + (y + z)
  {
  }

  lemma Cut(s: string, i: nat)
    requires i < |s|
    ensures s == s[..i] + [s[i]] + s[i + 1..]
  {
  }

  lemma TwoTokens(a: string, b: string, v: string, sep: char)
    requires a != "" && sep !in a && b != "" && sep !in b
    ensures Tokens((a + [sep]) + ((b + [sep]) + v), sep) == [a, b] + Tokens(v, sep)
  {
    FirstToken(a, (b + [sep]) + v, sep);
    FirstToken(b, v, sep);
    Prepend(a, b, Tokens(v, sep));
  }

  lemma Prepend(a: string, b: string, t: seq<string>)
    ensures [a] + ([b] + t) == [a, b] + t
  {
  }

  /** Trimming keeps a front that neither begins nor ends with a space. */
  lemma TrimKeepsFront(p: string, w: string)
    requires p != "" && !IsSpace(p[0]) && !IsSpace(p[|p| - 1])
    ensures Trim(p + w) == p + TrimRight(w)
  {
    assert (p + w)[0] == p[0];
    TrimRightKeepsFront(p, w);
  }

  /** Two tokens in front of anything. */
  lemma SplitTwo(a: string, b: string, w: string, sep: char)
    requires a != "" && sep !in a && b != "" && sep !in b && !IsSpace(a[0]) && !IsSpace(sep)
    ensures Split((a + [sep]) + (b + [sep]) + w, sep) == [a, b] + Tokens(TrimRight(w), sep)
  {
    var p := (a + [sep]) + (b + [sep]);
    assert p[0] == a[0] && p[|p| - 1] == sep;
    TrimKeepsFront(p, w);
    Assoc(a + [sep], b + [sep], TrimRight(w));
    TwoTokens(a, b, TrimRight(w), sep);
  }

  // ---- What joined tokens look like --------------------------------------------------------------

  predicate EndsIn(s: string, c: char) {
    s != "" && s[|s| - 1] == c
  }

  predicate EndsInSpace(s: string) {
    s != "" && IsSpace(s[|s| - 1])
  }

  lemma NoGapsJoined(output: string, s: string, sep: char)
    requires NoGaps(output, sep) && !EndsIn(output, sep) && sep !in s
    ensures NoGaps(Lead(output, sep) + s, sep)
  {
    var r := Lead(output, sep) + s;
    assert s != "" ==> s[0] in s;
    forall i | 0 <= i < |r| - 1 ensures !(r[i] == sep && r[i + 1] == sep) {
      if output != "" && i < |output| - 1 {
        assert r[i] == output[i] && r[i + 1] == output[i + 1];
      } else if i >= |Lead(output, sep)| {
        assert r[i] == s[i - |Lead(output, sep)|];
      }
    }
  }

  /** Joined tokens have no gaps, end in a space only if the string did, and hold no new character. */
  lemma {:induction false} JoinedTokens(output: string, s: string, sep: char, c: char)
    requires NoGaps(output, sep) && !EndsIn(output, sep) && !IsSpace(sep) && c != sep
    ensures var r := JoinFrom(output, Tokens(s, sep), sep);
            && NoGaps(r, sep)
            && (!EndsInSpace(s) ==> !EndsInSpace(r))
            && (c !in output && c !in s ==> c !in r)
    decreases |s|
  {
    if sep !in s {
      assert JoinFrom(output, [s], sep) == Lead(output, sep) + s;
      NoGapsJoined(output, s, sep);
    } else {
      var i := Find(s, sep);
      var front, rest := s[..i], s[i + 1..];
      Cut(s, i);
      if i == 0 {
        assert [] + Tokens(rest, sep) == Tokens(rest, sep);
        JoinedTokens(output, rest, sep, c);
      } else {
        var next := Lead(output, sep) + front;
        NoGapsJoined(output, front, sep);
        assert next[|next| - 1] in front;
        assert ([front] + Tokens(rest, sep))[1..] == Tokens(rest, sep);
        JoinedTokens(next, rest, sep, c);
      }
    }
  }

  /** The tokens from the `n`-th on are the tokens of a tail of the string. */
  lemma {:induction false} TokensFrom(s: string, sep: char, n: nat) returns (tail: string, at: nat)
    requires n < |Tokens(s, sep)|
    ensures at <= |s| && tail == s[at..] && Tokens(s, sep)[n..] == Tokens(tail, sep)
    decreases |s|
  {
    if n == 0 {
      tail, at := s, 0;
    } else {
      var i := Find(s, sep);
      var rest := s[i + 1..];
      if i == 0 {
        assert [] + Tokens(rest, sep) == Tokens(rest, sep);
        tail, at := TokensFrom(rest, sep, n);
      } else {
        tail, at := TokensFrom(rest, sep, n - 1);
        assert Tokens(s, sep)[n..] == Tokens(rest, sep)[n - 1..];
      }
      assert rest[at..] == s[i + 1 + at..];
      at := i + 1 + at;
    }
  }

  lemma {:induction false} TrimLeftIsTail(s: string) returns (at: nat)
    ensures at <= |s| && TrimLeft(s) == s[at..]
  {
    at := 0;
    if s != "" && IsSpace(s[0]) {
      at := TrimLeftIsTail(s[1..]);
      at := at + 1;
    }
  }

  /** Any run of tokens at the end of a split, joined. */
  lemma JoinedSplit(s: string, sep: char, n: nat, c: char)
    requires !IsSpace(sep) && c != sep && n < |Split(s, sep)|
    ensures var r := Join(Split(s, sep)[n..], sep);
            NoGaps(r, sep) && !EndsInSpace(r) && (c !in s ==> c !in r)
  {
    var t := Trim(s);
    var from := TrimLeftIsTail(s);
    var tail, at := TokensFrom(t, sep, n);
    TailOfTrimmed(s, from, t, at, c);
    JoinedTokens("", tail, sep, c);
  }

  lemma TailOfTrimmed(s: string, from: nat, t: string, at: nat, c: char)
    requires from <= |s| && t <= s[from..] && at <= |t| && !EndsInSpace(t)
    ensures c in t[at..] ==> c in s
    ensures !EndsInSpace(t[at..])
  {
    if c in t[at..] {
      var k :| 0 <= k < |t| - at && t[at..][k] == c;
      assert s[from..][at + k] == s[from + at + k] == c;
    }
  }
}
