/** The text primitives of the chain command handler: Python's whitespace class, lower-casing,
    left-stripping, and the splitting of a message text into parts with the pattern
    `(\S*="[^"]+"|"[^"]+"|\S+)`, written out as a direct scanner of its three alternatives. */
module Tokenizer {
  import opened Wrappers

  /** Python's `str.isspace()`; the same set is `\s` in a str pattern and what `str.lstrip()` removes. */
  predicate IsSpace(c: char) {
    || c == ' '
    || ('\t' <= c <= '\r')
    || ('\U{1C}' <= c <= '\U{1F}')
    || c == '\U{85}' || c == '\U{A0}' || c == '\U{1680}'
    || ('\U{2000}' <= c <= '\U{200A}')
    || c == '\U{2028}' || c == '\U{2029}' || c == '\U{202F}' || c == '\U{205F}' || c == '\U{3000}'
  }

  /** Python's `str.lower()` on one character, for the characters whose lower case is ASCII. */
  function LowerChar(c: char): char {
    if 'A' <= c <= 'Z' then (c as int + 32) as char
    else if c == '\U{212A}' then 'k'  // KELVIN SIGN lower-cases to an ASCII 'k'
    else c
  }

  function Lower(s: string): string {
    seq(|s|, i requires 0 <= i < |s| => LowerChar(s[i]))
  }

  /** `str.lstrip()`: the suffix left after dropping the leading whitespace. */
  function LStrip(s: string): (r: string)
    ensures |r| <= |s| && r == s[|s| - |r|..]
    ensures forall i :: 0 <= i < |s| - |r| ==> IsSpace(s[i])
    ensures r == [] || !IsSpace(r[0])
  {
    if s != [] && IsSpace(s[0]) then LStrip(s[1..]) else s
  }

  /** `t.replace('"', '')`. */
  function StripQuotes(t: string): (r: string)
    ensures '"' !in r
    ensures '"' !in t ==> r == t
    ensures |r| <= |t|
  {
    if t == [] then [] else (if t[0] == '"' then [] else [t[0]]) + StripQuotes(t[1..])
  }

  /** Length of the leading run of non-space characters: how far a greedy `\S*` reaches. */
  function RunLength(s: string): (n: nat)
    ensures n <= |s|
    ensures forall i :: 0 <= i < n ==> !IsSpace(s[i])
    ensures n == |s| || IsSpace(s[n])
  {
    if s == [] || IsSpace(s[0]) then 0 else 1 + RunLength(s[1..])
  }

  /** The first index at or after `from` that holds a double quote. */
  function QuoteAt(s: string, from: nat): (r: Option<nat>)
    requires from <= |s|
    ensures r.Some? ==> from <= r.value < |s| && s[r.value] == '"'
    ensures r.Some? ==> forall i :: from <= i < r.value ==> s[i] != '"'
    ensures r.None? ==> forall i :: from <= i < |s| ==> s[i] != '"'
    decreases |s| - from
  {
    if from == |s| then None
    else if s[from] == '"' then Some(from)
    else QuoteAt(s, from + 1)
  }

  /** End (exclusive) of a match of `"[^"]+"` that starts at index k, if there is one. */
  function QuotedFrom(s: string, k: nat): (r: Option<nat>)
    requires k <= |s|
    ensures r.Some? ==> k + 3 <= r.value <= |s| && s[k] == '"' && s[r.value - 1] == '"'
    ensures r.Some? ==> forall i :: k < i < r.value - 1 ==> s[i] != '"'
  {
    if k < |s| && s[k] == '"' then
      match QuoteAt(s, k + 1)
      case Some(q) => if q > k + 1 then Some(q + 1) else None
      case None => None
    else None
  }

  /** `\S*` may stop after k characters and be followed by `="[^"]+"`. */
  predicate SplitOk(s: string, k: nat) {
    k < |s| && s[k] == '=' && QuotedFrom(s, k + 1).Some?
  }

  /** The split point the regular-expression engine settles on for `\S*="[^"]+"`: the greedy
      `\S*` first takes the whole run and then gives back one character at a time, so among the
      split points up to j the largest that works is found. */
  function LastSplit(s: string, j: nat): (r: Option<nat>)
    ensures r.Some? ==> r.value <= j && SplitOk(s, r.value)
    ensures r.Some? ==> forall k :: r.value < k <= j ==> !SplitOk(s, k)
    ensures r.None? ==> forall k :: 0 <= k <= j ==> !SplitOk(s, k)
  {
    if SplitOk(s, j) then Some(j)
    else if j == 0 then None
    else LastSplit(s, j - 1)
  }

  /** End (exclusive) of the part the pattern matches at the start of s: `re.match` of the pattern. */
  function MatchEnd(s: string): (r: Option<nat>)
    ensures r.Some? <==> s != [] && !IsSpace(s[0])
    ensures r.Some? ==> 0 < r.value <= |s|
    ensures r.Some? ==> !IsSpace(s[r.value - 1])
  {
    if s == [] || IsSpace(s[0]) then None
    else match LastSplit(s, RunLength(s))
      case Some(k) => QuotedFrom(s, k + 1)
      case None =>
        match QuotedFrom(s, 0)
        case Some(e) => Some(e)
        case None => Some(RunLength(s))
  }

  /** The parts `findall` returns for the whole of s, each with its double quotes removed: at
      least one when s starts with a non-space character, and never more than s has characters. */
  function Tokens(s: string): (r: seq<string>)
    ensures s != [] && !IsSpace(s[0]) ==> r != []
    ensures |r| <= |s|
    decreases |s|
  {
    if s == [] then []
    else if IsSpace(s[0]) then Tokens(s[1..])
    else
      var e := MatchEnd(s).value;
      [StripQuotes(s[..e])] + Tokens(s[e..])
  }

  /** `extract_args(message, pos)`: the pattern has no anchor and no look-behind, so searching from
      `pos` finds what searching the suffix from `pos` finds. A non-space character at `pos` starts
      a part, and there are never more parts than characters after `pos`. */
  function ExtractArgs(text: string, pos: nat): (r: seq<string>)
    ensures pos < |text| && !IsSpace(text[pos]) ==> r != []
    ensures |r| <= |text| - pos || r == []
  {
    if pos <= |text| then Tokens(text[pos..]) else []
  }

  /** `extract_command(message)`: the end of the first part when one starts at offset 0, which is
      when the text does not start with whitespace. */
  function ExtractCommand(text: string): (r: Option<nat>)
    ensures r.Some? <==> text != [] && !IsSpace(text[0])
    ensures r.Some? ==> 0 < r.value <= |text| && !IsSpace(text[r.value - 1])
  {
    MatchEnd(text)
  }

  /** There are no parts exactly when the text is all whitespace. */
  lemma {:induction false} NoTokensExactlyBlank(s: string)
    ensures Tokens(s) == [] <==> LStrip(s) == []
    decreases |s|
  {
    if s != [] && IsSpace(s[0]) {
      NoTokensExactlyBlank(s[1..]);
    }
  }

  /** The arguments of the whole text are the command part, quotes removed, followed by the
      arguments after it. */
  lemma CommandThenArgs(text: string)
    requires ExtractCommand(text).Some?
    ensures var e := ExtractCommand(text).value;
      ExtractArgs(text, 0) == [StripQuotes(text[..e])] + ExtractArgs(text, e)
  {
    TokensAfterMatch(text, ExtractCommand(text).value);
    assert text[0..] == text;
  }

  /** What `str.split()` returns: drop leading whitespace, cut at the next whitespace, repeat. */
  function Words(s: string): seq<string>
    decreases |s|
  {
    var t := LStrip(s);
    if t == [] then []
    else
      var n := RunLength(t);
      [t[..n]] + Words(t[n..])
  }

  // ---------------------------------------------------------------------------------------
  // Properties of the scanner

  /** No part returned by `extract_args` contains a double quote. */
  lemma {:induction false} TokensHaveNoQuotes(s: string)
    ensures forall i :: 0 <= i < |Tokens(s)| ==> '"' !in Tokens(s)[i]
    decreases |s|
  {
    if s == [] {
    } else if IsSpace(s[0]) {
      TokensHaveNoQuotes(s[1..]);
    } else {
      var e := MatchEnd(s).value;
      TokensHaveNoQuotes(s[e..]);
    }
  }

  lemma NoSplitWithoutQuotes(s: string, j: nat)
    requires '"' !in s
    ensures LastSplit(s, j).None?
  {
    forall k | 0 <= k <= j ensures !SplitOk(s, k) {
      if k + 1 < |s| { assert s[k + 1] in s; }
    }
  }

  /** On a text without double quotes the parts are exactly the whitespace-separated words. */
  lemma {:induction false} QuoteFreeTokensAreWords(s: string)
    requires '"' !in s
    ensures Tokens(s) == Words(s)
    decreases |s|
  {
    if s == [] {
    } else if IsSpace(s[0]) {
      QuoteFreeTokensAreWords(s[1..]);
      assert LStrip(s) == LStrip(s[1..]);
    } else {
      NoSplitWithoutQuotes(s, RunLength(s));
      assert QuotedFrom(s, 0).None?;
      var n := RunLength(s);
      assert MatchEnd(s) == Some(n);
      assert '"' !in s[..n] by {
        forall i | 0 <= i < n ensures s[..n][i] != '"' { assert s[..n][i] == s[i]; }
      }
      assert '"' !in s[n..] by {
        forall i | 0 <= i < |s| - n ensures s[n..][i] != '"' { assert s[n..][i] == s[n + i]; }
      }
      QuoteFreeTokensAreWords(s[n..]);
    }
  }

  /** Leading whitespace never changes the parts. */
  lemma {:induction false} TokensOfLStrip(s: string)
    ensures Tokens(LStrip(s)) == Tokens(s)
    decreases |s|
  {
    if s != [] && IsSpace(s[0]) {
      TokensOfLStrip(s[1..]);
    }
  }

  /** A run of characters with no whitespace and no quote, ended by whitespace or the end of the
      text, is one part. */
  lemma WordToken(w: string, rest: string)
    requires w != [] && '"' !in w
    requires forall i :: 0 <= i < |w| ==> !IsSpace(w[i])
    requires rest == [] || IsSpace(rest[0])
    ensures Tokens(w + rest) == [w] + Tokens(rest)
  {
    var s := w + rest;
    WordMatchEnd(w, rest);
    TokensAfterMatch(s, |w|);
    assert s[..|w|] == w && s[|w|..] == rest;
  }

  lemma WordMatchEnd(w: string, rest: string)
    requires w != [] && '"' !in w
    requires forall i :: 0 <= i < |w| ==> !IsSpace(w[i])
    requires rest == [] || IsSpace(rest[0])
    ensures MatchEnd(w + rest) == Some(|w|)
  {
    var s := w + rest;
    assert s[0] == w[0] && w[0] in w;
    RunOfPrefix(w, rest);
    forall k | 0 <= k <= |w| ensures !SplitOk(s, k) {
      if k + 1 < |w| {
        assert s[k + 1] == w[k + 1] && w[k + 1] in w;
      } else if k + 1 == |w| {
        assert k + 1 < |s| ==> s[k + 1] == rest[0];
      } else {
        assert k < |s| ==> s[k] == rest[0];
      }
    }
    assert LastSplit(s, |w|).None?;
    assert QuotedFrom(s, 0).None?;
  }

  /** One step of `findall`: the part found at the start, then the search goes on after it. */
  lemma TokensAfterMatch(s: string, e: nat)
    requires MatchEnd(s) == Some(e)
    ensures Tokens(s) == [StripQuotes(s[..e])] + Tokens(s[e..])
  {
  }

  lemma {:induction false} RunOfPrefix(w: string, rest: string)
    requires forall i :: 0 <= i < |w| ==> !IsSpace(w[i])
    requires rest == [] || IsSpace(rest[0])
    ensures RunLength(w + rest) == |w|
  {
    if w == [] {
      assert w + rest == rest;
    } else {
      assert (w + rest)[0] == w[0];
      assert (w + rest)[1..] == w[1..] + rest;
      RunOfPrefix(w[1..], rest);
    }
  }

  lemma QuoteAtFirst(s: string, from: nat, q: nat)
    requires from <= q < |s| && s[q] == '"'
    requires forall i :: from <= i < q ==> s[i] != '"'
    ensures QuoteAt(s, from) == Some(q)
    decreases q - from
  {
    if from < q { QuoteAtFirst(s, from + 1, q); }
  }

  /** A quoted run `"w"` placed after p is matched by `"[^"]+"` exactly up to its closing quote. */
  lemma QuotedRunAt(p: string, w: string, rest: string)
    requires w != [] && '"' !in w
    ensures QuotedFrom(p + ['"'] + w + ['"'] + rest, |p|) == Some(|p| + |w| + 2)
  {
    var s := p + ['"'] + w + ['"'] + rest;
    var q := |p| + |w| + 1;
    forall i | |p| + 1 <= i < q ensures s[i] != '"' {
      assert s[i] == w[i - |p| - 1];
      assert w[i - |p| - 1] in w;
    }
    assert s[q] == '"' && s[|p|] == '"';
    QuoteAtFirst(s, |p| + 1, q);
  }

  lemma {:induction false} StripConcat(a: string, b: string)
    ensures StripQuotes(a + b) == StripQuotes(a) + StripQuotes(b)
    decreases |a|
  {
    if a == [] {
      assert a + b == b;
    } else {
      StripHead(a, b);
      StripConcat(a[1..], b);
      AppendAssoc(if a[0] == '"' then [] else [a[0]], StripQuotes(a[1..]), StripQuotes(b));
    }
  }

  lemma AppendAssoc(h: string, x: string, y: string)
    ensures h + (x + y) == (h + x) + y
  {
  }

  /** `replace` looks at the first character, then goes on with the rest. */
  lemma StripHead(a: string, b: string)
    requires a != []
    ensures var h := if a[0] == '"' then [] else [a[0]];
      StripQuotes(a + b) == h + StripQuotes(a[1..] + b) && StripQuotes(a) == h + StripQuotes(a[1..])
  {
    assert (a + b)[0] == a[0];
    assert (a + b)[1..] == a[1..] + b;
  }

  lemma StripQuotedRun(w: string)
    requires '"' !in w
    ensures StripQuotes(['"'] + w + ['"']) == w
  {
    StripConcat(['"'] + w, ['"']);
    StripConcat(['"'], w);
  }

  lemma SpaceSkipped(c: char, t: string)
    requires IsSpace(c)
    ensures Tokens([c] + t) == Tokens(t)
  {
    assert ([c] + t)[1..] == t;
  }

  /** `"w"` is kept as one part `w`, spaces inside included, when it is followed by whitespace or
      the end and does not end in `=` (which would let the `key="..."` alternative reach further). */
  lemma QuotedToken(w: string, rest: string)
    requires w != [] && '"' !in w && w[|w| - 1] != '='
    requires rest == [] || IsSpace(rest[0])
    ensures Tokens(['"'] + w + ['"'] + rest) == [w] + Tokens(rest)
  {
    var s := ['"'] + w + ['"'] + rest;
    var e := |w| + 2;
    QuotedMatchEnd(w, rest);
    TokensAfterMatch(s, e);
    assert s[..e] == ['"'] + w + ['"'];
    assert s[e..] == rest;
    StripQuotedRun(w);
  }

  lemma QuotedMatchEnd(w: string, rest: string)
    requires w != [] && '"' !in w && w[|w| - 1] != '='
    requires rest == [] || IsSpace(rest[0])
    ensures MatchEnd(['"'] + w + ['"'] + rest) == Some(|w| + 2)
  {
    var s := ['"'] + w + ['"'] + rest;
    var e := |w| + 2;
    assert s == [] + ['"'] + w + ['"'] + rest;
    QuotedRunAt([], w, rest);
    assert QuotedFrom(s, 0) == Some(e);
    forall i | 0 < i < e - 1 ensures s[i] != '"' {
      assert s[i] == w[i - 1] && w[i - 1] in w;
    }
    assert s[e - 2] == w[|w| - 1];
    assert e < |s| ==> s[e] == rest[0];
    var n := RunLength(s);
    assert e < |s| ==> IsSpace(s[e]);
    NoSplitInQuoted(s, e, n);
    assert LastSplit(s, n).None?;
  }

  /** In a quoted run from 0 to e that is followed by whitespace or the end, and whose last inner
      character is not `=`, no split point up to e works. */
  lemma NoSplitInQuoted(s: string, e: nat, n: nat)
    requires 3 <= e <= |s| && n <= e && s[0] == '"' && s[e - 1] == '"'
    requires forall i :: 0 < i < e - 1 ==> s[i] != '"'
    requires s[e - 2] != '='
    requires e < |s| ==> IsSpace(s[e])
    ensures forall k :: 0 <= k <= n ==> !SplitOk(s, k)
  {
    forall k | 0 <= k <= n ensures !SplitOk(s, k) {
      if 0 < k < e - 2 {
        assert s[k + 1] != '"';
      }
    }
  }

  /** `key="w"` is kept as one part `key=w` when it is followed by whitespace or the end, the key
      has no whitespace or quote, and `w` does not end in `=`. */
  lemma KeyQuotedToken(key: string, w: string, rest: string)
    requires '"' !in key && forall i :: 0 <= i < |key| ==> !IsSpace(key[i])
    requires w != [] && '"' !in w && w[|w| - 1] != '='
    requires rest == [] || IsSpace(rest[0])
    ensures Tokens(key + ['='] + ['"'] + w + ['"'] + rest) == [key + ['='] + w] + Tokens(rest)
  {
    KeyQuotedFacts(key, w, rest);
    TokensStep(key + ['='] + ['"'] + w + ['"'] + rest, |key| + |w| + 3, key + ['='] + w, rest);
  }

  /** Where the part ends, what it strips to, and what follows it. */
  lemma KeyQuotedFacts(key: string, w: string, rest: string)
    requires '"' !in key && forall i :: 0 <= i < |key| ==> !IsSpace(key[i])
    requires w != [] && '"' !in w && w[|w| - 1] != '='
    requires rest == [] || IsSpace(rest[0])
    ensures var s := key + ['='] + ['"'] + w + ['"'] + rest;
      var e := |key| + |w| + 3;
      MatchEnd(s) == Some(e) && StripQuotes(s[..e]) == key + ['='] + w && s[e..] == rest
  {
    KeyQuotedMatchEnd(key, w, rest);
    KeyQuotedStrip(key, w, rest);
  }

  lemma TokensStep(s: string, e: nat, t: string, r: string)
    requires MatchEnd(s) == Some(e) && StripQuotes(s[..e]) == t && s[e..] == r
    ensures Tokens(s) == [t] + Tokens(r)
  {
    TokensAfterMatch(s, e);
  }

  lemma KeyQuotedMatchEnd(key: string, w: string, rest: string)
    requires '"' !in key && forall i :: 0 <= i < |key| ==> !IsSpace(key[i])
    requires w != [] && '"' !in w && w[|w| - 1] != '='
    requires rest == [] || IsSpace(rest[0])
    ensures MatchEnd(key + ['='] + ['"'] + w + ['"'] + rest) == Some(|key| + |w| + 3)
  {
    var p := key + ['='];
    var s := p + ['"'] + w + ['"'] + rest;
    assert s == key + ['='] + ['"'] + w + ['"'] + rest;
    var k0 := |key|;
    var e := k0 + |w| + 3;
    QuotedRunAt(p, w, rest);
    assert s[k0] == '=';
    assert SplitOk(s, k0);
    forall i | 0 <= i <= k0 ensures !IsSpace(s[i]) {
      if i < k0 {
        assert s[i] == key[i];
      }
    }
    forall i | k0 + 2 <= i < e - 1 ensures s[i] != '"' {
      assert s[i] == w[i - k0 - 2] && w[i - k0 - 2] in w;
    }
    assert s[e - 2] == w[|w| - 1];
    assert e < |s| ==> s[e] == rest[0];
    LaterSplitsFail(s, k0, e);
  }

  /** With a quoted run from k0 + 1 to e, followed by whitespace or the end, no split point past
      k0 works, so the engine settles on k0. */
  lemma LaterSplitsFail(s: string, k0: nat, e: nat)
    requires k0 + 4 <= e <= |s| && SplitOk(s, k0)
    requires forall i :: 0 <= i <= k0 ==> !IsSpace(s[i])
    requires forall i :: k0 + 2 <= i < e - 1 ==> s[i] != '"'
    requires s[e - 2] != '='
    requires e < |s| ==> IsSpace(s[e])
    ensures MatchEnd(s) == QuotedFrom(s, k0 + 1)
  {
    var n := RunLength(s);
    assert k0 < n;
    assert n <= e;
    forall k | k0 < k <= n ensures !SplitOk(s, k) {
      if k + 1 < e - 1 {
        assert s[k + 1] != '"';
      } else if k + 1 == e - 1 {
        assert s[k] != '=';
      } else if k + 1 == e {
        assert k + 1 < |s| ==> IsSpace(s[k + 1]);
      } else {
        assert k < |s| ==> IsSpace(s[k]);
      }
    }
    LastSplitFinds(s, n, k0);
  }

  lemma KeyQuotedStrip(key: string, w: string, rest: string)
    requires '"' !in key && '"' !in w
    ensures var s := key + ['='] + ['"'] + w + ['"'] + rest;
      && s[|key| + |w| + 3..] == rest
      && StripQuotes(s[..|key| + |w| + 3]) == key + ['='] + w
  {
    var s := key + ['='] + ['"'] + w + ['"'] + rest;
    assert s[..|key| + |w| + 3] == (key + ['=']) + (['"'] + w + ['"']);
    StripConcat(key + ['='], ['"'] + w + ['"']);
    StripQuotedRun(w);
    StripConcat(key, ['=']);
  }

  lemma LastSplitFinds(s: string, j: nat, k: nat)
    requires k <= j && SplitOk(s, k)
    requires forall k' :: k < k' <= j ==> !SplitOk(s, k')
    ensures LastSplit(s, j) == Some(k)
    decreases j
  {
    if j > k { LastSplitFinds(s, j - 1, k); }
  }
}
