/** `scrubApiUrl` and the structural part of `scrubSentryEvent`
    (src/utils/scrubber.ts): identifiers are masked in URL paths, query
    values are replaced by placeholders, and personal fields are removed from
    an error-report event before it leaves the device. */
module Scrubber {
  import opened Wrappers
  import opened Text
  import opened JsonValue
  import opened Seqs

  /** The characters the regular-expression `.` does not match. */
  predicate IsLineTerminator(c: char) {
    c == '\n' || c == '\r' || c as int == 0x2028 || c as int == 0x2029
  }

  predicate NoLineTerminator(s: string) {
    forall c | c in s :: !IsLineTerminator(c)
  }

  // ---------------------------------------------------------------------
  // The path passes

  /** Length of the longest prefix of decimal digits. */
  function DigitRun(s: string): (n: nat)
    ensures n <= |s|
    ensures forall i | 0 <= i < n :: IsDigit(s[i])
    ensures n < |s| ==> !IsDigit(s[n])
  {
    if s != [] && IsDigit(s[0]) then 1 + DigitRun(s[1..]) else 0
  }

  /** Length of the match of `\/\d+(?=\/|$)` at the start of `s`, 0 when there
      is none. The greedy `\d+` backtracks in vain: a shorter run is followed
      by a digit. */
  function IdMatch(s: string): (n: nat)
    ensures n <= |s|
    ensures n > 0 ==> n >= 2 && s[0] == '/' && (n == |s| || s[n] == '/')
  {
    if s != [] && s[0] == '/' then
      var d := DigitRun(s[1..]);
      if d > 0 && (1 + d == |s| || s[1 + d] == '/') then 1 + d else 0
    else 0
  }

  /** `s.replaceAll(/\/\d+(?=\/|$)/g, '/:id')`: the scan resumes after each
      match and moves one character on after each failed position. */
  function ReplaceIds(s: string): string
    decreases |s|
  {
    if s == [] then []
    else if IdMatch(s) > 0 then "/:id" + ReplaceIds(s[IdMatch(s)..])
    else [s[0]] + ReplaceIds(s[1..])
  }

  /** Length of the run of characters that `.` matches. */
  function LineRun(s: string): (n: nat)
    ensures n <= |s|
    ensures NoLineTerminator(s) ==> n == |s|
  {
    if s != [] && !IsLineTerminator(s[0]) then
      assert NoLineTerminator(s) ==> NoLineTerminator(s[1..]) by {
        if NoLineTerminator(s) {
          forall c | c in s[1..] ensures !IsLineTerminator(c) { assert c in s; }
        }
      }
      1 + LineRun(s[1..])
    else 0
  }

  /** The backtracking of `.+(?=\/|$)` over `t`: the largest `k` in `1..bound`
      after which `t` ends or holds a `/`, 0 when there is none. */
  function LastStop(t: string, bound: nat): (k: nat)
    requires bound <= |t|
    ensures k <= bound
    ensures k > 0 ==> k == |t| || t[k] == '/'
  {
    if bound == 0 then 0
    else if bound == |t| || t[bound] == '/' then bound
    else LastStop(t, bound - 1)
  }

  /** Length of the match of `\/TCN.+(?=\/|$)` at the start of `s`, 0 when
      there is none. */
  function TcnMatch(s: string): (n: nat)
    ensures n <= |s|
    ensures n > 0 ==> n >= 5 && s[0] == '/'
  {
    if StartsWith(s, "/TCN") then
      var t := s[4..];
      var k := LastStop(t, LineRun(t));
      if k > 0 then 4 + k else 0
    else 0
  }

  /** `s.replaceAll(/\/TCN.+(?=\/|$)/g, '/:tcn_id')`. */
  function ReplaceTcn(s: string): string
    decreases |s|
  {
    if s == [] then []
    else if TcnMatch(s) > 0 then "/:tcn_id" + ReplaceTcn(s[TcnMatch(s)..])
    else [s[0]] + ReplaceTcn(s[1..])
  }

  /** The path part of `scrubApiUrl`: numeric segments first, then TCN ids. */
  function ScrubPath(base: string): string {
    ReplaceTcn(ReplaceIds(base))
  }

  // ---------------------------------------------------------------------
  // The query and the whole URL

  /** `const [key] = param.split('='); return `${key}=:${key}``. */
  function ScrubParam(param: string): string {
    var key := Split(param, '=')[0];
    key + "=:" + key
  }

  function MapScrubParam(params: seq<string>): (r: seq<string>)
    ensures |r| == |params|
    ensures forall i | 0 <= i < |params| :: r[i] == ScrubParam(params[i])
  {
    if params == [] then [] else [ScrubParam(params[0])] + MapScrubParam(params[1..])
  }

  function ScrubQuery(query: string): string {
    Join(MapScrubParam(Split(query, '&')), '&')
  }

  /** `scrubApiUrl(url)`. The split on `?` always has a first piece, so the
      `?? url` fallback of the source is never taken. */
  function ScrubApiUrl(url: string): string {
    var pieces := Split(url, '?');
    if |pieces| > 1 && pieces[1] != "" then ScrubPath(pieces[0]) + "?" + ScrubQuery(pieces[1])
    else ScrubPath(pieces[0])
  }

  // ---------------------------------------------------------------------
  // What the passes do

  /** A numeric segment, followed by another segment or by the end, becomes
      `/:id`. */
  lemma NumericSegment(digits: string, rest: string)
    requires digits != [] && AllDigits(digits)
    requires rest == [] || rest[0] == '/'
    ensures ReplaceIds("/" + digits + rest) == "/:id" + ReplaceIds(rest)
  {
    var s := "/" + digits + rest;
    assert s[1..] == digits + rest;
    DigitRunPrefix(digits, rest);
    assert s[1 + |digits|..] == rest;
  }

  lemma {:induction false} DigitRunPrefix(digits: string, rest: string)
    requires AllDigits(digits)
    requires rest == [] || !IsDigit(rest[0])
    ensures DigitRun(digits + rest) == |digits|
  {
    if digits != [] {
      assert (digits + rest)[1..] == digits[1..] + rest;
      DigitRunPrefix(digits[1..], rest);
    } else {
      assert digits + rest == rest;
    }
  }

  /** Without line terminators, `.+` runs to the end: the first `/TCN`
      followed by at least one character takes the rest of the path. */
  lemma TcnMatchNoTerminator(s: string)
    requires NoLineTerminator(s)
    ensures TcnMatch(s) == if StartsWith(s, "/TCN") && |s| > 4 then |s| else 0
  {
    if StartsWith(s, "/TCN") {
      var t := s[4..];
      forall c | c in t ensures !IsLineTerminator(c) { assert c in s; }
      assert LineRun(t) == |t|;
    }
  }

  lemma TcnCollapses(s: string)
    requires NoLineTerminator(s) && StartsWith(s, "/TCN") && |s| > 4
    ensures ReplaceTcn(s) == "/:tcn_id"
  {
    TcnMatchNoTerminator(s);
    assert s[|s|..] == [];
  }

  // ---------------------------------------------------------------------
  // Character bookkeeping

  lemma DropAvoids(s: string, k: nat, c: char)
    requires k <= |s| && c !in s
    ensures c !in s[k..]
  {
    forall i | 0 <= i < |s[k..]| ensures s[k..][i] != c {
      assert s[k..][i] == s[k + i];
    }
  }

  lemma {:induction false} IdsAvoid(s: string, c: char)
    requires c !in s && c !in "/:id"
    ensures c !in ReplaceIds(s)
    decreases |s|
  {
    if s != [] {
      if IdMatch(s) > 0 {
        DropAvoids(s, IdMatch(s), c);
        IdsAvoid(s[IdMatch(s)..], c);
      } else {
        DropAvoids(s, 1, c);
        IdsAvoid(s[1..], c);
      }
    }
  }

  lemma {:induction false} TcnAvoid(s: string, c: char)
    requires c !in s && c !in "/:tcn_id"
    ensures c !in ReplaceTcn(s)
    decreases |s|
  {
    if s != [] {
      if TcnMatch(s) > 0 {
        DropAvoids(s, TcnMatch(s), c);
        TcnAvoid(s[TcnMatch(s)..], c);
      } else {
        DropAvoids(s, 1, c);
        TcnAvoid(s[1..], c);
      }
    }
  }

  /** The path passes introduce neither `?` nor a line terminator. */
  lemma PathAvoids(s: string, c: char)
    requires c !in s && (c == '?' || IsLineTerminator(c))
    ensures c !in ScrubPath(s)
  {
    IdsAvoid(s, c);
    TcnAvoid(ReplaceIds(s), c);
  }

  lemma PathNoTerminator(s: string)
    requires NoLineTerminator(s)
    ensures NoLineTerminator(ReplaceIds(s)) && NoLineTerminator(ScrubPath(s))
  {
    forall c | IsLineTerminator(c) ensures c !in ReplaceIds(s) && c !in ScrubPath(s) {
      IdsAvoid(s, c);
      PathAvoids(s, c);
    }
  }

  // ---------------------------------------------------------------------
  // Idempotence of the numeric pass

  /** No position of `s` starts a numeric-segment match. */
  predicate IdFree(s: string)
    decreases |s|
  {
    s == [] || (IdMatch(s) == 0 && IdFree(s[1..]))
  }

  lemma {:induction false} IdFreeUnchanged(s: string)
    requires IdFree(s)
    ensures ReplaceIds(s) == s
    decreases |s|
  {
    if s != [] {
      IdFreeUnchanged(s[1..]);
      assert [s[0]] + s[1..] == s;
    }
  }

  /** A string without digits has no numeric segment. */
  lemma {:induction false} NoDigitsIdFree(s: string)
    requires forall i | 0 <= i < |s| :: !IsDigit(s[i])
    ensures IdFree(s)
    decreases |s|
  {
    if s != [] {
      assert s[1..] == [] || !IsDigit(s[1..][0]);
      NoDigitsIdFree(s[1..]);
    }
  }

  /** A prefix without `/` passes through the numeric pass untouched. */
  lemma {:induction false} IdsKeepPrefix(t: string, k: nat)
    requires k <= |t|
    requires forall i | 0 <= i < k :: t[i] != '/'
    ensures ReplaceIds(t) == t[..k] + ReplaceIds(t[k..])
    decreases k
  {
    if k > 0 {
      var u := t[1..];
      IdsKeepPrefix(u, k - 1);
      IdsStep(t);
      assert u[k - 1..] == t[k..];
      assert [t[0]] + u[..k - 1] == t[..k];
      AppendAssoc([t[0]], u[..k - 1], ReplaceIds(t[k..]));
    } else {
      assert t[..0] == [] && t[0..] == t;
    }
  }

  lemma IdsStep(t: string)
    requires t != [] && t[0] != '/'
    ensures ReplaceIds(t) == [t[0]] + ReplaceIds(t[1..])
  {
  }

  /** The first character out of the numeric pass is the input's, or the `/`
      of a replacement. */
  lemma IdsFirst(t: string)
    requires t != []
    ensures ReplaceIds(t) != [] && (ReplaceIds(t)[0] == t[0] || ReplaceIds(t)[0] == '/')
  {
  }

  /** Appending after a `/` whose digits end in a non-`/` character cannot
      create a match there. */
  lemma IdMatchAfterSlash(s: string, out: string)
    requires s != [] && s[0] == '/' && IdMatch(s) == 0
    requires out != [] && out[0] == '/'
    requires var d := DigitRun(s[1..]);
      if d == 0 then out[1..] == [] || !IsDigit(out[1])
      else 1 + d < |out| && out[..2 + d] == s[..2 + d]
    ensures IdMatch(out) == 0
  {
    var d := DigitRun(s[1..]);
    if d > 0 {
      assert 1 + d < |s| && s[1 + d] != '/';
      assert out[1..][..d + 1] == s[1..][..d + 1];
      DigitRunPrefix(out[1..][..d], out[1..][d..]);
      assert out[1..][..d] + out[1..][d..] == out[1..];
      assert out[1 + d] == s[1 + d];
    } else if out[1..] != [] {
      assert !IsDigit(out[1..][0]);
    }
  }

  /** The output of the numeric pass has no numeric segment left. */
  lemma {:induction false} IdsLeaveNoMatch(s: string)
    ensures IdFree(ReplaceIds(s))
    decreases |s|
  {
    if s == [] {
    } else if IdMatch(s) > 0 {
      var rest := ReplaceIds(s[IdMatch(s)..]);
      IdsLeaveNoMatch(s[IdMatch(s)..]);
      IdReplacementFree(rest);
    } else {
      var t := s[1..];
      var out := [s[0]] + ReplaceIds(t);
      IdsLeaveNoMatch(t);
      assert out[1..] == ReplaceIds(t);
      if s[0] == '/' {
        var d := DigitRun(t);
        if d == 0 {
          if t != [] { IdsFirst(t); assert !IsDigit(t[0]); }
        } else {
          assert forall i | 0 <= i < d + 1 :: t[i] != '/';
          IdsKeepPrefix(t, d + 1);
          assert out[..2 + d] == [s[0]] + t[..d + 1];
          assert s[..2 + d] == [s[0]] + t[..d + 1];
        }
        IdMatchAfterSlash(s, out);
      }
    }
  }

  lemma IdReplacementFree(rest: string)
    requires IdFree(rest)
    ensures IdFree("/:id" + rest)
  {
    var out := "/:id" + rest;
    assert out[1..] == ":id" + rest;
    assert out[1..][1..] == "id" + rest;
    assert out[1..][1..][1..] == "d" + rest;
    assert out[1..][1..][1..][1..] == rest;
    assert IdFree(out[1..][1..][1..]);
    assert IdFree(out[1..][1..]);
    assert IdFree(out[1..]);
    assert DigitRun(out[1..]) == 0;
  }

  // ---------------------------------------------------------------------
  // Idempotence of the TCN pass, for paths without line terminators

  predicate TcnFree(s: string)
    decreases |s|
  {
    s == [] || (TcnMatch(s) == 0 && TcnFree(s[1..]))
  }

  lemma {:induction false} TcnFreeUnchanged(s: string)
    requires TcnFree(s)
    ensures ReplaceTcn(s) == s
    decreases |s|
  {
    if s != [] {
      TcnFreeUnchanged(s[1..]);
      assert [s[0]] + s[1..] == s;
    }
  }

  /** A string without a capital `T` has no TCN match. */
  lemma {:induction false} NoCapitalTFree(s: string)
    requires 'T' !in s
    ensures TcnFree(s)
    decreases |s|
  {
    if s != [] {
      assert !StartsWith(s, "/TCN") by {
        if |s| >= 4 { assert s[1] in s; assert s[..4][1] == s[1]; }
      }
      DropAvoids(s, 1, 'T');
      NoCapitalTFree(s[1..]);
    }
  }

  lemma TcnFirst(t: string)
    requires t != []
    ensures ReplaceTcn(t) != [] && (ReplaceTcn(t)[0] == t[0] || ReplaceTcn(t)[0] == '/')
  {
  }

  /** Leading characters other than `/`. */
  function NonSlashRun(t: string): (n: nat)
    ensures n <= |t|
    ensures forall i | 0 <= i < n :: t[i] != '/'
    ensures n < |t| ==> t[n] == '/'
  {
    if t != [] && t[0] != '/' then 1 + NonSlashRun(t[1..]) else 0
  }

  /** The TCN pass output starts with `TCN` only when its input does. */
  lemma TcnKeepsNotTcn(t: string)
    requires !StartsWith(t, "TCN")
    ensures !StartsWith(ReplaceTcn(t), "TCN")
  {
    var m := if NonSlashRun(t) < 3 then NonSlashRun(t) else 3;
    TcnKeepPrefix(t, m);
    var r := ReplaceTcn(t);
    if m == 3 {
      assert r[..3] == t[..3];
    } else if m < |t| {
      TcnFirst(t[m..]);
      assert r[m] == ReplaceTcn(t[m..])[0];
      assert r[m] == '/';
    } else {
      assert t[m..] == [];
      assert |r| == m;
    }
  }

  /** Without line terminators, the TCN pass leaves no TCN match. */
  lemma {:induction false} TcnLeavesNoMatch(s: string)
    requires NoLineTerminator(s)
    ensures TcnFree(ReplaceTcn(s))
    decreases |s|
  {
    if s != [] {
      TcnMatchNoTerminator(s);
      if TcnMatch(s) > 0 {
        TcnCollapses(s);
        NoCapitalTFree("/:tcn_id");
      } else {
        var t := s[1..];
        assert NoLineTerminator(t) by {
          forall c | c in t ensures !IsLineTerminator(c) { assert c in s; }
        }
        TcnLeavesNoMatch(t);
        var out := [s[0]] + ReplaceTcn(t);
        assert out[1..] == ReplaceTcn(t);
        PrefixTcnNoMatch(s, out);
      }
    }
  }

  lemma PrefixTcnNoMatch(s: string, out: string)
    requires s != [] && NoLineTerminator(s)
    requires !(StartsWith(s, "/TCN") && |s| > 4)
    requires out == [s[0]] + ReplaceTcn(s[1..])
    ensures TcnMatch(out) == 0
  {
    var t := s[1..];
    assert out[1..] == ReplaceTcn(t);
    if s[0] == '/' {
      if StartsWith(t, "TCN") {
        assert StartsWith(s, "/TCN") by { assert s[..4] == [s[0]] + t[..3]; }
        assert t == "TCN";
        TcnKeepPrefix(t, 3);
        assert t[3..] == [];
        assert out == "/TCN";
        assert LineRun(out[4..]) == 0;
      } else {
        TcnKeepsNotTcn(t);
        assert !StartsWith(out, "/TCN") by {
          if |out| >= 4 { assert out[..4][1..] == ReplaceTcn(t)[..3]; }
        }
      }
    }
  }

  /** A prefix without `/` passes through the TCN pass untouched. */
  lemma {:induction false} TcnKeepPrefix(t: string, k: nat)
    requires k <= |t|
    requires forall i | 0 <= i < k :: t[i] != '/'
    ensures ReplaceTcn(t) == t[..k] + ReplaceTcn(t[k..])
    decreases k
  {
    if k > 0 {
      var u := t[1..];
      TcnKeepPrefix(u, k - 1);
      TcnStep(t);
      assert u[k - 1..] == t[k..];
      assert [t[0]] + u[..k - 1] == t[..k];
      AppendAssoc([t[0]], u[..k - 1], ReplaceTcn(t[k..]));
    } else {
      assert t[..0] == [] && t[0..] == t;
    }
  }

  lemma TcnStep(t: string)
    requires t != [] && t[0] != '/'
    ensures ReplaceTcn(t) == [t[0]] + ReplaceTcn(t[1..])
  {
  }

  /** The TCN pass does not create numeric segments. */
  lemma {:induction false} TcnKeepsIdFree(s: string)
    requires NoLineTerminator(s) && IdFree(s)
    ensures IdFree(ReplaceTcn(s))
    decreases |s|
  {
    if s != [] {
      TcnMatchNoTerminator(s);
      if TcnMatch(s) > 0 {
        TcnCollapses(s);
        NoDigitsIdFree("/:tcn_id");
      } else {
        var t := s[1..];
        assert NoLineTerminator(t) by {
          forall c | c in t ensures !IsLineTerminator(c) { assert c in s; }
        }
        TcnKeepsIdFree(t);
        TcnStepIdFree(s);
      }
    }
  }

  lemma TcnStepIdFree(s: string)
    requires s != [] && IdMatch(s) == 0 && TcnMatch(s) == 0
    requires IdFree(ReplaceTcn(s[1..]))
    ensures IdFree(ReplaceTcn(s))
  {
    var out := [s[0]] + ReplaceTcn(s[1..]);
    assert ReplaceTcn(s) == out;
    assert out[1..] == ReplaceTcn(s[1..]);
    if s[0] == '/' {
      SlashStepNoId(s, out);
    }
  }

  /** A `/` the numeric pass did not match stays unmatched after the TCN
      pass rewrites what follows it. */
  lemma SlashStepNoId(s: string, out: string)
    requires s != [] && s[0] == '/' && IdMatch(s) == 0
    requires out == [s[0]] + ReplaceTcn(s[1..])
    ensures IdMatch(out) == 0
  {
    var t := s[1..];
    assert out[1..] == ReplaceTcn(t);
    var d := DigitRun(t);
    if d == 0 {
      if t != [] { TcnFirst(t); }
    } else {
      DigitsSurviveTcn(s, out, d);
    }
    IdMatchAfterSlash(s, out);
  }

  lemma DigitsSurviveTcn(s: string, out: string, d: nat)
    requires s != [] && s[0] == '/' && IdMatch(s) == 0
    requires out == [s[0]] + ReplaceTcn(s[1..])
    requires d == DigitRun(s[1..]) && d > 0
    ensures 1 + d < |out| && out[..2 + d] == s[..2 + d]
  {
    var t := s[1..];
    assert d < |t| && t[d] != '/';
    TcnKeepPrefix(t, d + 1);
    assert out[..2 + d] == [s[0]] + t[..d + 1];
    assert s[..2 + d] == [s[0]] + t[..d + 1];
  }

  /** Scrubbing a path twice is scrubbing it once. */
  lemma ScrubPathIdempotent(s: string)
    requires NoLineTerminator(s)
    ensures ScrubPath(ScrubPath(s)) == ScrubPath(s)
  {
    var x := ReplaceIds(s);
    PathNoTerminator(s);
    IdsLeaveNoMatch(s);
    TcnKeepsIdFree(x);
    var y := ReplaceTcn(x);
    IdFreeUnchanged(y);
    TcnLeavesNoMatch(x);
    TcnFreeUnchanged(y);
  }

  // ---------------------------------------------------------------------
  // The query string

  /** The value after the first `=` never reaches the output. */
  lemma ParamValueDropped(key: string, value: string)
    requires '=' !in key
    ensures ScrubParam(key + "=" + value) == key + "=:" + key
  {
    SplitConcat(key, value, '=');
  }

  /** A parameter without `=` is its own key. */
  lemma ParamWithoutValue(key: string)
    requires '=' !in key
    ensures ScrubParam(key) == key + "=:" + key
  {
    SplitNoSeparator(key, '=');
  }

  lemma ScrubParamIdempotent(param: string)
    ensures ScrubParam(ScrubParam(param)) == ScrubParam(param)
  {
    var key := Split(param, '=')[0];
    assert key + "=:" + key == key + "=" + (":" + key);
    ParamValueDropped(key, ":" + key);
  }

  lemma ScrubParamAvoids(param: string, c: char)
    requires c !in param && c != '=' && c != ':'
    ensures c !in ScrubParam(param)
  {
    SplitAvoids(param, '=', c);
  }

  /** The scrubbed query has one parameter per input parameter, in the same
      order, each scrubbed. */
  lemma QueryParams(query: string)
    ensures Split(ScrubQuery(query), '&') == MapScrubParam(Split(query, '&'))
  {
    var params := Split(query, '&');
    var scrubbed := MapScrubParam(params);
    forall i | 0 <= i < |scrubbed| ensures '&' !in scrubbed[i] {
      assert params[i] in params;
      ScrubParamAvoids(params[i], '&');
    }
    SplitJoin(scrubbed, '&');
  }

  /** Even an empty query string scrubs to `=:`. */
  lemma QueryNonEmpty(query: string)
    ensures |ScrubQuery(query)| >= 2
  {
    var scrubbed := MapScrubParam(Split(query, '&'));
    JoinLength(scrubbed, '&');
  }

  lemma QueryAvoids(query: string, c: char)
    requires c !in query && c != '&' && c != '=' && c != ':'
    ensures c !in ScrubQuery(query)
  {
    var params := Split(query, '&');
    SplitAvoids(query, '&', c);
    var scrubbed := MapScrubParam(params);
    forall i | 0 <= i < |scrubbed| ensures c !in scrubbed[i] {
      assert params[i] in params;
      ScrubParamAvoids(params[i], c);
    }
    JoinAvoids(scrubbed, '&', c);
  }

  lemma QueryIdempotent(query: string)
    ensures ScrubQuery(ScrubQuery(query)) == ScrubQuery(query)
  {
    QueryParams(query);
    var scrubbed := MapScrubParam(Split(query, '&'));
    forall i | 0 <= i < |scrubbed| ensures ScrubParam(scrubbed[i]) == scrubbed[i] {
      ScrubParamIdempotent(Split(query, '&')[i]);
    }
    assert MapScrubParam(scrubbed) == scrubbed;
  }

  // ---------------------------------------------------------------------
  // The whole URL

  /** A URL without `?` is scrubbed as a path and gains no `?`. */
  lemma UrlWithoutQuery(url: string)
    requires '?' !in url
    ensures ScrubApiUrl(url) == ScrubPath(url)
    ensures '?' !in ScrubApiUrl(url)
  {
    SplitNoSeparator(url, '?');
    PathAvoids(url, '?');
  }

  /** An empty query string, or one cut short by a second `?`, leaves no `?`
      in the output. */
  lemma UrlEmptyQuery(path: string, rest: string)
    requires '?' !in path
    requires rest == [] || rest[0] == '?'
    ensures ScrubApiUrl(path + "?" + rest) == ScrubPath(path)
    ensures '?' !in ScrubApiUrl(path + "?" + rest)
  {
    SplitConcat(path, rest, '?');
    if rest != [] {
      assert rest == [] + "?" + rest[1..];
      SplitConcat([], rest[1..], '?');
    }
    PathAvoids(path, '?');
  }

  /** Only the text up to a second `?` is kept as the query. */
  lemma UrlDropsAfterSecondMark(path: string, query: string, rest: string)
    requires '?' !in path && '?' !in query && query != ""
    ensures ScrubApiUrl(path + "?" + query + "?" + rest) == ScrubPath(path) + "?" + ScrubQuery(query)
  {
    assert path + "?" + query + "?" + rest == path + "?" + (query + "?" + rest);
    SplitConcat(path, query + "?" + rest, '?');
    SplitConcat(query, rest, '?');
  }

  /** A URL with a query string keeps the shape `path?query`. */
  lemma UrlWithQuery(path: string, query: string)
    requires '?' !in path && '?' !in query && query != ""
    ensures ScrubApiUrl(path + "?" + query) == ScrubPath(path) + "?" + ScrubQuery(query)
  {
    SplitConcat(path, query, '?');
    SplitNoSeparator(query, '?');
  }

  /** Scrubbing a URL twice is scrubbing it once, for URLs without line
      terminators. */
  lemma ScrubApiUrlIdempotent(url: string)
    requires NoLineTerminator(url)
    ensures ScrubApiUrl(ScrubApiUrl(url)) == ScrubApiUrl(url)
  {
    var pieces := Split(url, '?');
    var path := pieces[0];
    forall c | IsLineTerminator(c) ensures c !in path {
      SplitAvoids(url, '?', c);
    }
    ScrubPathIdempotent(path);
    PathAvoids(path, '?');
    var scrubbedPath := ScrubPath(path);
    if |pieces| > 1 && pieces[1] != "" {
      var query := ScrubQuery(pieces[1]);
      QueryAvoids(pieces[1], '?');
      QueryNonEmpty(pieces[1]);
      UrlWithQuery(scrubbedPath, query);
      QueryIdempotent(pieces[1]);
    } else {
      UrlWithoutQuery(scrubbedPath);
    }
  }

  // ---------------------------------------------------------------------
  // The error-report event

  /** The parts of a Sentry event the scrubber touches; everything else an
      object holds is kept in `others`. */
  datatype User = User(email: Option<string>, ipAddress: Option<string>, others: seq<Field>)

  datatype Request = Request(
    url: Option<string>,
    headers: Option<Json>,
    cookies: Option<Json>,
    data: Option<Json>,
    queryString: Option<Json>,
    others: seq<Field>)

  datatype Mechanism = Mechanism(data: Option<seq<Field>>, others: seq<Field>)

  /** The records below hold the fields the scrubber reads; `others` stands
      for the rest, which its in-place assignments leave untouched. */
  datatype ExceptionValue = ExceptionValue(value: Option<string>, mechanism: Option<Mechanism>, others: seq<Field>)

  datatype ExceptionInfo = ExceptionInfo(values: Option<seq<ExceptionValue>>)

  datatype Breadcrumb =
    Breadcrumb(category: Option<string>, message: Option<string>, data: Option<seq<Field>>, others: seq<Field>)

  datatype Span = Span(description: Option<string>, data: Option<seq<Field>>, others: seq<Field>)

  /** `o[k] = v` on an object that has the key `k`: the first field with that
      key takes the new value. */
  function SetField(fields: seq<Field>, k: string, v: Json): (r: seq<Field>)
    ensures Keys(r) == Keys(fields)
  {
    if fields == [] then []
    else if fields[0].key == k then [Field(k, v)] + fields[1..]
    else [fields[0]] + SetField(fields[1..], k, v)
  }

  lemma {:induction false} SetFieldGet(fields: seq<Field>, k: string, v: Json, other: string)
    requires k in Keys(fields)
    ensures Get(SetField(fields, k, v), k) == Some(v)
    ensures other != k ==> Get(SetField(fields, k, v), other) == Get(fields, other)
  {
    if fields[0].key != k {
      assert Keys(fields) == [fields[0].key] + Keys(fields[1..]);
      SetFieldGet(fields[1..], k, v, other);
    }
  }

  /** `x ? scrubString(x) : x` on an optional string. */
  function ScrubText(text: Option<string>, scrubString: string -> string): (r: Option<string>)
    ensures text.None? || text.value == "" ==> r == text
    ensures text.Some? && text.value != "" ==> r == Some(scrubString(text.value))
  {
    if text.Some? && text.value != "" then Some(scrubString(text.value)) else text
  }

  /** `typeof data?.url === 'string'` followed by `data.url = scrubApiUrl(data.url)`. */
  function ScrubDataUrl(data: Option<seq<Field>>): (r: Option<seq<Field>>)
  {
    if data.Some? && Get(data.value, "url").Some? && Get(data.value, "url").value.JStr? then
      Some(SetField(data.value, "url", JStr(ScrubApiUrl(Get(data.value, "url").value.s))))
    else data
  }

  /** String-valued entries of `mechanism.data` go through `scrubString`. */
  function ScrubEntries(fields: seq<Field>, scrubString: string -> string): (r: seq<Field>)
  {
    if fields == [] then []
    else
      var f := fields[0];
      var v := if f.value.JStr? then JStr(scrubString(f.value.s)) else f.value;
      [Field(f.key, v)] + ScrubEntries(fields[1..], scrubString)
  }

  /** One exception value: its text and its mechanism data are scrubbed;
      every other field, of the value and of its mechanism, is kept. */
  function ScrubException(ex: ExceptionValue, scrubString: string -> string): (r: ExceptionValue)
    ensures r.others == ex.others
    ensures r.mechanism.Some? <==> ex.mechanism.Some?
    ensures r.mechanism.Some? ==>
      r.mechanism.value.others == ex.mechanism.value.others &&
      (r.mechanism.value.data.Some? <==> ex.mechanism.value.data.Some?)
  {
    var mechanism :=
      if ex.mechanism.Some? && ex.mechanism.value.data.Some? then
        Some(ex.mechanism.value.(data := Some(ScrubEntries(ex.mechanism.value.data.value, scrubString))))
      else ex.mechanism;
    ex.(value := ScrubText(ex.value, scrubString), mechanism := mechanism)
  }

  function MapScrubException(exs: seq<ExceptionValue>, scrubString: string -> string): (r: seq<ExceptionValue>)
    ensures |r| == |exs|
    ensures forall i | 0 <= i < |exs| :: r[i] == ScrubException(exs[i], scrubString)
  {
    if exs == [] then [] else [ScrubException(exs[0], scrubString)] + MapScrubException(exs[1..], scrubString)
  }

  /** The request keeps its URL, scrubbed when it is a non-empty string, and
      loses its headers, cookies, body and query string. */
  function ScrubRequest(r: Request): (out: Request)
    ensures out.headers.None? && out.cookies.None? && out.data.None? && out.queryString.None?
    ensures out.others == r.others
  {
    var url := if r.url.Some? && r.url.value != "" then Some(ScrubApiUrl(r.url.value)) else r.url;
    r.(headers := None, cookies := None, data := None, queryString := None, url := url)
  }

  /** `exception.values = exception.values?.map(...)`. */
  function ScrubExceptionInfo(info: ExceptionInfo, scrubString: string -> string): (out: ExceptionInfo)
    ensures info.values.None? <==> out.values.None?
    ensures info.values.Some? ==> |out.values.value| == |info.values.value|
  {
    if info.values.Some? then ExceptionInfo(Some(MapScrubException(info.values.value, scrubString)))
    else ExceptionInfo(None)
  }

  predicate IsConsole(b: Breadcrumb) {
    b.category == Some("console")
  }

  /** One breadcrumb: its message and its data's `url` are scrubbed; its
      category and every other field are kept. */
  function ScrubBreadcrumb(b: Breadcrumb, scrubString: string -> string): (r: Breadcrumb)
    ensures r.category == b.category && r.others == b.others
    ensures r.data.Some? <==> b.data.Some?
  {
    b.(message := ScrubText(b.message, scrubString), data := ScrubDataUrl(b.data))
  }

  /** The `flatMap` over the breadcrumbs: console entries give nothing, the
      others one scrubbed breadcrumb each. */
  function ScrubBreadcrumbs(bs: seq<Breadcrumb>, scrubString: string -> string): seq<Breadcrumb> {
    if bs == [] then []
    else
      var head := if IsConsole(bs[0]) then [] else [ScrubBreadcrumb(bs[0], scrubString)];
      head + ScrubBreadcrumbs(bs[1..], scrubString)
  }

  /** One span: its description and its data's `url` are scrubbed; every
      other field is kept. */
  function ScrubSpan(span: Span, scrubString: string -> string): (r: Span)
    ensures r.others == span.others
    ensures r.data.Some? <==> span.data.Some?
  {
    span.(description := ScrubText(span.description, scrubString), data := ScrubDataUrl(span.data))
  }

  function MapScrubSpan(spans: seq<Span>, scrubString: string -> string): (r: seq<Span>)
    ensures |r| == |spans|
    ensures forall i | 0 <= i < |spans| :: r[i] == ScrubSpan(spans[i], scrubString)
  {
    if spans == [] then [] else [ScrubSpan(spans[0], scrubString)] + MapScrubSpan(spans[1..], scrubString)
  }

  /** The breadcrumbs that are not console messages, in order. */
  function NonConsole(bs: seq<Breadcrumb>): (r: seq<Breadcrumb>)
    ensures |r| <= |bs|
  {
    if bs == [] then []
    else if IsConsole(bs[0]) then NonConsole(bs[1..])
    else [bs[0]] + NonConsole(bs[1..])
  }

  function MapScrubBreadcrumb(bs: seq<Breadcrumb>, scrubString: string -> string): (r: seq<Breadcrumb>)
    ensures |r| == |bs|
    ensures forall i | 0 <= i < |bs| :: r[i] == ScrubBreadcrumb(bs[i], scrubString)
  {
    if bs == [] then [] else [ScrubBreadcrumb(bs[0], scrubString)] + MapScrubBreadcrumb(bs[1..], scrubString)
  }

  /** A Sentry error or transaction event, scrubbed in place before it is
      sent. `scrubString` is the free-text scrubber, taken as a parameter. */
  class SentryEvent {
    var user: Option<User>
    var extra: Option<Json>
    var request: Option<Request>
    var exception: Option<ExceptionInfo>
    var breadcrumbs: Option<seq<Breadcrumb>>
    var spans: Option<seq<Span>>

    constructor (user: Option<User>, extra: Option<Json>, request: Option<Request>,
                 exception: Option<ExceptionInfo>, breadcrumbs: Option<seq<Breadcrumb>>, spans: Option<seq<Span>>)
      ensures this.user == user && this.extra == extra && this.request == request
      ensures this.exception == exception && this.breadcrumbs == breadcrumbs && this.spans == spans
    {
      this.user := user;
      this.extra := extra;
      this.request := request;
      this.exception := exception;
      this.breadcrumbs := breadcrumbs;
      this.spans := spans;
    }

    /** `scrubSentryEvent(event)`. */
    method Scrub(scrubString: string -> string)
      modifies this
      ensures user == if old(user).Some? then Some(old(user).value.(email := None, ipAddress := None)) else None
      ensures extra == None
      ensures request == if old(request).Some? then Some(ScrubRequest(old(request).value)) else None
      ensures exception == if old(exception).Some? then Some(ScrubExceptionInfo(old(exception).value, scrubString)) else None
      ensures breadcrumbs == if old(breadcrumbs).Some? then Some(ScrubBreadcrumbs(old(breadcrumbs).value, scrubString)) else None
      ensures spans == if old(spans).Some? then Some(MapScrubSpan(old(spans).value, scrubString)) else None
    {
      if user.Some? {
        user := Some(user.value.(email := None, ipAddress := None));
      }
      extra := None;

      if request.Some? {
        request := Some(ScrubRequest(request.value));
      }

      if exception.Some? {
        exception := Some(ScrubExceptionInfo(exception.value, scrubString));
      }

      if breadcrumbs.Some? {
        breadcrumbs := Some(ScrubBreadcrumbs(breadcrumbs.value, scrubString));
      }

      if spans.Some? {
        spans := Some(MapScrubSpan(spans.value, scrubString));
      }
    }
  }

  // ---------------------------------------------------------------------
  // What the event scrubber promises

  /** Console breadcrumbs are dropped and the others are scrubbed one by one,
      in their original order. */
  lemma {:induction false} BreadcrumbsFiltered(bs: seq<Breadcrumb>, scrubString: string -> string)
    ensures ScrubBreadcrumbs(bs, scrubString) == MapScrubBreadcrumb(NonConsole(bs), scrubString)
  {
    if bs != [] {
      BreadcrumbsFiltered(bs[1..], scrubString);
    }
  }

  /** No console breadcrumb survives. */
  lemma {:induction false} NoConsoleLeft(bs: seq<Breadcrumb>, scrubString: string -> string)
    ensures forall b | b in ScrubBreadcrumbs(bs, scrubString) :: !IsConsole(b)
  {
    if bs != [] {
      NoConsoleLeft(bs[1..], scrubString);
    }
  }

  /** Every breadcrumb that is not a console message is kept. */
  lemma {:induction false} NonConsoleKept(bs: seq<Breadcrumb>, i: nat, scrubString: string -> string)
    requires i < |bs| && !IsConsole(bs[i])
    ensures ScrubBreadcrumb(bs[i], scrubString) in ScrubBreadcrumbs(bs, scrubString)
  {
    if i > 0 {
      NonConsoleKept(bs[1..], i - 1, scrubString);
    }
  }

  /** A string `url` in a breadcrumb's or span's data is replaced by its
      scrubbed form; the other entries are untouched. */
  lemma DataUrlScrubbed(data: seq<Field>, u: string, other: string)
    requires Get(data, "url") == Some(JStr(u))
    ensures ScrubDataUrl(Some(data)).Some?
    ensures Get(ScrubDataUrl(Some(data)).value, "url") == Some(JStr(ScrubApiUrl(u)))
    ensures other != "url" ==> Get(ScrubDataUrl(Some(data)).value, other) == Get(data, other)
    ensures Keys(ScrubDataUrl(Some(data)).value) == Keys(data)
  {
    SetFieldGet(data, "url", JStr(ScrubApiUrl(u)), other);
  }

  /** A `url` entry that is not a string is left alone. */
  lemma DataUrlNotString(data: seq<Field>)
    requires Get(data, "url").None? || !Get(data, "url").value.JStr?
    ensures ScrubDataUrl(Some(data)) == Some(data)
  {
  }

  /** Only the string-valued entries of the mechanism data change, each to its
      scrubbed text; the keys and their order are kept. */
  lemma {:induction false} EntriesScrubbed(fields: seq<Field>, scrubString: string -> string)
    ensures |ScrubEntries(fields, scrubString)| == |fields|
    ensures Keys(ScrubEntries(fields, scrubString)) == Keys(fields)
    ensures forall i | 0 <= i < |fields| ::
      ScrubEntries(fields, scrubString)[i].value ==
        if fields[i].value.JStr? then JStr(scrubString(fields[i].value.s)) else fields[i].value
  {
    if fields != [] {
      EntriesScrubbed(fields[1..], scrubString);
    }
  }
}
