/** Python's whitespace handling of one line of a file: `line.strip()`
    as a test for a blank line, and `line.split()` with no argument. */
module Text {
  import opened Common

  /** `c.isspace()` in Python: the ASCII separators and control codes
      U+0009..U+000D and U+001C..U+001F, the space, and the Unicode
      characters whose bidirectional class is whitespace or separator. */
  predicate IsSpace(c: char)
  {
    var n := c as int;
    (9 <= n <= 13) || (28 <= n <= 32) || n == 0x85 || n == 0xA0 || n == 0x1680 ||
    (0x2000 <= n <= 0x200A) || n == 0x2028 || n == 0x2029 || n == 0x202F ||
    n == 0x205F || n == 0x3000
  }

  /** `line.strip()` is the empty string. */
  predicate IsBlank(s: string)
  {
    forall i :: 0 <= i < |s| ==> IsSpace(s[i])
  }

  /** A token as `split()` produces it: non-empty, no whitespace in it. */
  predicate IsToken(t: string)
  {
    t != [] && forall i :: 0 <= i < |t| ==> !IsSpace(t[i])
  }

  /** The characters of `s` that are not whitespace, in order. */
  function Squeeze(s: string): (r: string)
    ensures |r| <= |s|
  {
    if s == [] then []
    else if IsSpace(s[0]) then Squeeze(s[1..])
    else [s[0]] + Squeeze(s[1..])
  }

  function Itself(t: string): string
  {
    t
  }

  /** Concatenation of a list of strings. */
  function Concat(ts: seq<string>): string
  {
    FlatMap(ts, Itself)
  }

  function Emit(cur: string): seq<string>
  {
    if cur == [] then [] else [cur]
  }

  /** Scanning `s` with the characters of the token in progress in `cur`:
      whitespace closes the current token, anything else extends it. */
  function SplitFrom(s: string, cur: string): seq<string>
    decreases |s|
  {
    if s == [] then Emit(cur)
    else if IsSpace(s[0]) then Emit(cur) + SplitFrom(s[1..], [])
    else SplitFrom(s[1..], cur + [s[0]])
  }

  /** `s.split()`: the maximal runs of non-whitespace characters. */
  function Tokens(s: string): seq<string>
  {
    SplitFrom(s, [])
  }

  /** Joining tokens with one space, the inverse of `Tokens`. */
  function JoinSpace(ts: seq<string>): string
  {
    if ts == [] then []
    else if |ts| == 1 then ts[0]
    else ts[0] + " " + JoinSpace(ts[1..])
  }

  lemma {:induction false} SplitFromTokens(s: string, cur: string)
    requires forall i :: 0 <= i < |cur| ==> !IsSpace(cur[i])
    ensures forall k :: 0 <= k < |SplitFrom(s, cur)| ==> IsToken(SplitFrom(s, cur)[k])
    decreases |s|
  {
    if s == [] {
    } else if IsSpace(s[0]) {
      SplitFromTokens(s[1..], []);
      var rest := SplitFrom(s[1..], []);
      forall k | 0 <= k < |Emit(cur) + rest|
        ensures IsToken((Emit(cur) + rest)[k])
      {
        if k >= |Emit(cur)| {
          assert (Emit(cur) + rest)[k] == rest[k - |Emit(cur)|];
        }
      }
    } else {
      SplitFromTokens(s[1..], cur + [s[0]]);
    }
  }

  /** Every piece `split()` returns is a token. */
  lemma TokensAreTokens(s: string)
    ensures forall k :: 0 <= k < |Tokens(s)| ==> IsToken(Tokens(s)[k])
  {
    SplitFromTokens(s, []);
  }

  lemma {:induction false} SplitFromConcat(s: string, cur: string)
    ensures Concat(SplitFrom(s, cur)) == cur + Squeeze(s)
    decreases |s|
  {
    if s == [] {
      ConcatEmit(cur);
    } else if IsSpace(s[0]) {
      var rest := SplitFrom(s[1..], []);
      SplitFromConcat(s[1..], []);
      assert SplitFrom(s, cur) == Emit(cur) + rest;
      FlatMapAppend(Emit(cur), rest, Itself);
      ConcatEmit(cur);
      assert Squeeze(s) == Squeeze(s[1..]);
    } else {
      SplitFromConcat(s[1..], cur + [s[0]]);
      assert Squeeze(s) == [s[0]] + Squeeze(s[1..]);
      assert cur + [s[0]] + Squeeze(s[1..]) == cur + ([s[0]] + Squeeze(s[1..]));
    }
  }

  lemma ConcatEmit(cur: string)
    ensures Concat(Emit(cur)) == cur
  {
    if cur != [] {
      assert [cur][1..] == [];
      assert FlatMap([cur], Itself) == Itself(cur) + FlatMap([cur][1..], Itself);
    }
  }

  /** `split()` loses exactly the whitespace: concatenating its tokens
      gives back every other character of the line, in order. */
  lemma TokensConcat(s: string)
    ensures Concat(Tokens(s)) == Squeeze(s)
  {
    SplitFromConcat(s, []);
  }

  lemma {:induction false} SqueezeEmpty(s: string)
    ensures Squeeze(s) == [] <==> IsBlank(s)
  {
    if s != [] {
      SqueezeEmpty(s[1..]);
      if IsSpace(s[0]) {
        if IsBlank(s[1..]) {
          forall i | 0 <= i < |s| ensures IsSpace(s[i]) {
            if i > 0 { assert s[i] == s[1..][i - 1]; }
          }
        }
        if IsBlank(s) {
          forall i | 0 <= i < |s[1..]| ensures IsSpace(s[1..][i]) {
            assert s[1..][i] == s[i + 1];
          }
        }
      } else {
        assert !IsSpace(s[0]);
      }
    }
  }

  /** A line yields no tokens exactly when `line.strip()` is empty, so the
      filter `if line.strip()` removes precisely the lines `split()` would
      turn into empty rows. */
  lemma TokensEmptyIffBlank(s: string)
    ensures Tokens(s) == [] <==> IsBlank(s)
  {
    TokensConcat(s);
    TokensAreTokens(s);
    SqueezeEmpty(s);
    var ts := Tokens(s);
    if ts != [] {
      assert IsToken(ts[0]);
      assert Concat(ts) == ts[0] + Concat(ts[1..]);
      assert |Concat(ts)| >= |ts[0]| > 0;
    }
  }

  lemma {:induction false} SplitFromJoin(ts: seq<string>, cur: string)
    requires ts != []
    requires forall k :: 0 <= k < |ts| ==> IsToken(ts[k])
    ensures SplitFrom(JoinSpace(ts), cur) == [cur + ts[0]] + ts[1..]
    decreases |ts|
  {
    if |ts| == 1 {
      SplitFromWord(ts[0], [], cur);
      assert ts[0] + [] == ts[0];
      assert |cur + ts[0]| > 0;
    } else {
      var rest := " " + JoinSpace(ts[1..]);
      SplitFromWord(ts[0], rest, cur);
      assert (ts[0] + " " + JoinSpace(ts[1..])) == ts[0] + rest;
      assert rest[1..] == JoinSpace(ts[1..]);
      SplitFromJoin(ts[1..], []);
      assert [] + ts[1..][0] == ts[1];
      assert [ts[1]] + ts[1..][1..] == ts[1..];
    }
  }

  /** Scanning across a run of non-whitespace characters only extends the
      token in progress. */
  lemma {:induction false} SplitFromWord(w: string, rest: string, cur: string)
    requires forall i :: 0 <= i < |w| ==> !IsSpace(w[i])
    ensures SplitFrom(w + rest, cur) == SplitFrom(rest, cur + w)
    decreases |w|
  {
    if w == [] {
      assert w + rest == rest;
      assert cur + w == cur;
    } else {
      assert (w + rest)[0] == w[0];
      assert (w + rest)[1..] == w[1..] + rest;
      SplitFromWord(w[1..], rest, cur + [w[0]]);
      assert cur + [w[0]] + w[1..] == cur + w;
    }
  }

  /** Round trip: splitting tokens joined by single spaces gives the tokens
      back. */
  lemma TokensOfJoin(ts: seq<string>)
    requires forall k :: 0 <= k < |ts| ==> IsToken(ts[k])
    ensures Tokens(JoinSpace(ts)) == ts
  {
    if ts != [] {
      SplitFromJoin(ts, []);
      assert [] + ts[0] == ts[0];
    }
  }

  /** `seps[0] + ts[0] + seps[1] + ts[1] + ... + ts[n - 1] + seps[n]`: the
      tokens with a separator before, between and after them. */
  function Interleave(ts: seq<string>, seps: seq<string>): string
    requires |seps| == |ts| + 1
  {
    if ts == [] then seps[0]
    else seps[0] + (ts[0] + Interleave(ts[1..], seps[1..]))
  }

  /** Whitespace before the next token is skipped. */
  lemma {:induction false} BlankSkip(w: string, rest: string)
    requires IsBlank(w)
    ensures SplitFrom(w + rest, []) == SplitFrom(rest, [])
    decreases |w|
  {
    if w == [] {
      assert w + rest == rest;
    } else {
      assert (w + rest)[0] == w[0];
      assert (w + rest)[1..] == w[1..] + rest;
      BlankSkip(w[1..], rest);
    }
  }

  /** Whitespace after a token closes it. */
  lemma BlankClose(w: string, rest: string, cur: string)
    requires IsBlank(w) && w != []
    ensures SplitFrom(w + rest, cur) == Emit(cur) + SplitFrom(rest, [])
  {
    assert (w + rest)[0] == w[0];
    assert (w + rest)[1..] == w[1..] + rest;
    BlankSkip(w[1..], rest);
  }

  /** Whitespace at the end of the line closes the last token. */
  lemma BlankEnd(w: string, cur: string)
    requires IsBlank(w)
    ensures SplitFrom(w, cur) == Emit(cur)
  {
    if w != [] {
      assert w + [] == w;
      BlankClose(w, [], cur);
    }
  }

  /** Round trip with any whitespace: tokens separated by non-empty runs of
      whitespace, with any whitespace (or none) before the first and after
      the last, as in a line read with its `'\n'`, split back into those
      tokens. */
  lemma {:induction false} TokensOfInterleave(ts: seq<string>, seps: seq<string>)
    requires |seps| == |ts| + 1
    requires forall k :: 0 <= k < |ts| ==> IsToken(ts[k])
    requires forall k :: 0 <= k < |seps| ==> IsBlank(seps[k])
    requires forall k :: 0 < k < |ts| ==> seps[k] != []
    ensures Tokens(Interleave(ts, seps)) == ts
  {
    if ts == [] {
      BlankEnd(seps[0], []);
    } else {
      var tail := Interleave(ts[1..], seps[1..]);
      BlankSkip(seps[0], ts[0] + tail);
      SplitFromWord(ts[0], tail, []);
      assert [] + ts[0] == ts[0];
      if |ts| == 1 {
        assert tail == seps[1];
        BlankEnd(seps[1], ts[0]);
      } else {
        var after := ts[1] + Interleave(ts[2..], seps[2..]);
        assert ts[1..][1..] == ts[2..] && seps[1..][1..] == seps[2..];
        assert tail == seps[1] + after;
        BlankClose(seps[1], after, ts[0]);
        BlankSkip(seps[1], after);
        TokensOfInterleave(ts[1..], seps[1..]);
      }
    }
  }
}
