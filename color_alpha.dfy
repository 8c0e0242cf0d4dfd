/** `addColorAlpha` (src/utils/addColorAlpha.ts): adds an alpha channel to a
    CSS colour written as `#RRGGBB` (section 5.2 of CSS Color Module Level 4),
    `rgb(...)` or `hsl(...)`. The alpha number is given by its text, since
    number-to-string conversion is not modelled. */
module ColorAlpha {
  import opened Wrappers
  import opened Text

  /** White space skipped by `parseInt`: the ECMAScript WhiteSpace and
      LineTerminator code points. */
  predicate IsJsSpace(c: char) {
    var n := c as int;
    0x09 <= n <= 0x0D || n == 0x20 || n == 0xA0 || n == 0x1680 || 0x2000 <= n <= 0x200A
    || n == 0x2028 || n == 0x2029 || n == 0x202F || n == 0x205F || n == 0x3000 || n == 0xFEFF
  }

  predicate IsHexDigit(c: char) {
    IsDigit(c) || 'a' <= c <= 'f' || 'A' <= c <= 'F'
  }

  function HexValue(c: char): nat
    requires IsHexDigit(c)
    ensures HexValue(c) < 16
  {
    if IsDigit(c) then c as int - '0' as int
    else if 'a' <= c <= 'f' then c as int - 'a' as int + 10
    else c as int - 'A' as int + 10
  }

  /** Length of the longest prefix of hex digits. */
  function HexRun(s: string): (n: nat)
    ensures n <= |s|
    ensures forall i | 0 <= i < n :: IsHexDigit(s[i])
    ensures n < |s| ==> !IsHexDigit(s[n])
  {
    if s != [] && IsHexDigit(s[0]) then 1 + HexRun(s[1..]) else 0
  }

  /** The value of a string of hex digits. */
  function HexNumber(s: string): nat
    requires forall i | 0 <= i < |s| :: IsHexDigit(s[i])
  {
    if s == [] then 0 else 16 * HexNumber(s[..|s| - 1]) + HexValue(s[|s| - 1])
  }

  function TrimStart(s: string): (r: string)
    ensures r == [] || !IsJsSpace(r[0])
  {
    if s != [] && IsJsSpace(s[0]) then TrimStart(s[1..]) else s
  }

  /** `Number.parseInt(s, 16)`; `None` is NaN. */
  function ParseHex(s: string): Option<int> {
    var t := TrimStart(s);
    var negative := t != [] && t[0] == '-';
    var unsigned := if t != [] && (t[0] == '-' || t[0] == '+') then t[1..] else t;
    var digits := if |unsigned| >= 2 && unsigned[0] == '0' && unsigned[1] in "xX" then unsigned[2..] else unsigned;
    var n := HexRun(digits);
    var magnitude: int := HexNumber(digits[..n]);
    if n == 0 then None
    else Some(if negative then -magnitude else magnitude)
  }

  /** `${x}` for the result of `parseInt`. */
  function NumberText(x: Option<int>): string {
    if x.None? then "NaN" else IntToString(x.value)
  }

  /** `color.slice(start, end)` with both ends clamped to the length. */
  function Slice(s: string, start: nat, end: nat): string
    requires start <= end
  {
    if start >= |s| then "" else s[start..if end <= |s| then end else |s|]
  }

  /** `part.replaceAll(/[()]/g, '')`. */
  function RemoveParens(s: string): (r: string)
    ensures '(' !in r && ')' !in r
  {
    if s == [] then ""
    else (if s[0] in {'(', ')'} then "" else [s[0]]) + RemoveParens(s[1..])
  }

  function MapRemoveParens(parts: seq<string>): (r: seq<string>)
    ensures |r| == |parts|
    ensures forall i | 0 <= i < |parts| :: r[i] == RemoveParens(parts[i])
  {
    if parts == [] then [] else [RemoveParens(parts[0])] + MapRemoveParens(parts[1..])
  }

  /** `${parts[i]}`: a missing element renders as `undefined`. */
  function PartText(parts: seq<string>, i: nat): string {
    if i < |parts| then parts[i] else "undefined"
  }

  function Render(fn: string, a: string, b: string, c: string, alpha: string): string {
    fn + "(" + a + ", " + b + ", " + c + ", " + alpha + ")"
  }

  /** The components of an `rgb`/`hsl` colour as the source computes them. */
  function SplitComponents(color: string): seq<string> {
    MapRemoveParens(Split(color, ','))
  }

  /** The `#` branch: each two-character slice is parsed as hex. */
  function FromHex(color: string, alpha: string): string {
    Render("rgba", Channel(color, 1), Channel(color, 3), Channel(color, 5), alpha)
  }

  /** `${parseInt(color.slice(k, k + 2), 16)}`. */
  function Channel(color: string, k: nat): string {
    NumberText(ParseHex(Slice(color, k, k + 2)))
  }

  /** The `rgb`/`hsl` branches: the first three components under the new name. */
  function FromFunctional(fn: string, color: string, alpha: string): string {
    var parts := SplitComponents(color);
    Render(fn, PartText(parts, 0), PartText(parts, 1), PartText(parts, 2), alpha)
  }

  /** `addColorAlpha(color, alpha)` as written. `alpha` is the text
      `${alpha}` of the source's numeric argument. */
  function AddColorAlpha(color: string, alpha: string): string {
    if StartsWith(color, "#") then FromHex(color, alpha)
    else if StartsWith(color, "rgb") then FromFunctional("rgba", color, alpha)
    else if StartsWith(color, "hsl") then FromFunctional("hsla", color, alpha)
    else color
  }

  /** A hex colour with three two-digit channels becomes `rgba(r, g, b, alpha)`
      with each channel's value. */
  lemma HexColour(color: string, alpha: string)
    requires |color| == 7 && color[0] == '#'
    requires forall i | 1 <= i < 7 :: IsHexDigit(color[i])
    ensures AddColorAlpha(color, alpha) ==
      Render("rgba", NatToString(PairValue(color, 1)), NatToString(PairValue(color, 3)),
             NatToString(PairValue(color, 5)), alpha)
  {
    assert StartsWith(color, "#") by { assert color[..1] == [color[0]]; }
    assert AddColorAlpha(color, alpha) == FromHex(color, alpha);
    HexChannel(color, 1);
    HexChannel(color, 3);
    HexChannel(color, 5);
    HexChannels(color, alpha, PairValue(color, 1), PairValue(color, 3), PairValue(color, 5));
  }

  /** The value of the two hex digits at `k` and `k + 1`. */
  function PairValue(color: string, k: nat): nat
    requires k + 2 <= |color| && IsHexDigit(color[k]) && IsHexDigit(color[k + 1])
  {
    16 * HexValue(color[k]) + HexValue(color[k + 1])
  }

  lemma HexChannels(color: string, alpha: string, r: nat, g: nat, b: nat)
    requires ParseHex(Slice(color, 1, 3)) == Some(r)
    requires ParseHex(Slice(color, 3, 5)) == Some(g)
    requires ParseHex(Slice(color, 5, 7)) == Some(b)
    ensures FromHex(color, alpha) == Render("rgba", NatToString(r), NatToString(g), NatToString(b), alpha)
  {
  }

  lemma HexChannel(color: string, k: nat)
    requires k + 2 <= |color| && IsHexDigit(color[k]) && IsHexDigit(color[k + 1])
    ensures ParseHex(Slice(color, k, k + 2)) == Some(PairValue(color, k))
  {
    var s := Slice(color, k, k + 2);
    assert s == color[k..k + 2];
    HexPair(s);
  }

  lemma HexPair(s: string)
    requires |s| == 2 && IsHexDigit(s[0]) && IsHexDigit(s[1])
    ensures ParseHex(s) == Some(16 * HexValue(s[0]) + HexValue(s[1]))
  {
    assert !IsJsSpace(s[0]);
    assert TrimStart(s) == s;
    assert s[..2] == s;
    assert HexRun(s[1..][1..]) == 0;
    assert HexRun(s[1..]) == 1;
    assert HexRun(s) == 2;
    assert s[..1] == [s[0]];
    assert HexNumber(s[..1]) == HexValue(s[0]) by {
      assert s[..1][..0] == [];
    }
    assert HexNumber(s) == 16 * HexNumber(s[..1]) + HexValue(s[1]);
  }

  /** The prefix tests run in order: a colour that starts with none of `#`,
      `rgb`, `hsl` is returned unchanged, and `#` wins over the others. */
  lemma OtherColoursUnchanged(color: string, alpha: string)
    ensures !StartsWith(color, "#") && !StartsWith(color, "rgb") && !StartsWith(color, "hsl") ==>
      AddColorAlpha(color, alpha) == color
    ensures StartsWith(color, "#") ==> StartsWith(AddColorAlpha(color, alpha), "rgba(")
  {
  }

  /** No comma and no parenthesis: a component as written inside `rgb(...)`. */
  predicate Plain(s: string) {
    ',' !in s && '(' !in s && ')' !in s
  }

  /** What the source does to `name(a,b,c)`: the first component keeps the
      function name, so `rgb(1,2,3)` becomes `rgba(rgb1, 2, 3, alpha)`. */
  lemma AsWrittenFunctionalColour(name: string, a: string, b: string, c: string, alpha: string)
    requires name in {"rgb", "hsl"}
    requires Plain(a) && Plain(b) && Plain(c)
    ensures AddColorAlpha(name + "(" + a + "," + b + "," + c + ")", alpha) ==
      Render(if name == "rgb" then "rgba" else "hsla", name + a, b, c, alpha)
  {
    var fn := if name == "rgb" then "rgba" else "hsla";
    var color := name + "(" + a + "," + b + "," + c + ")";
    Reassociate(name, a, b, c);
    NameDispatch(name, a + "," + b + "," + c + ")", alpha);
    NameIsPlain(name);
    AsWrittenComponents(name, a, b, c);
    var parts := SplitComponents(color);
    assert FromFunctional(fn, color, alpha) == Render(fn, parts[0], parts[1], parts[2], alpha);
  }

  /** The components the source splits from `name(a,b,c)`. */
  lemma AsWrittenComponents(name: string, a: string, b: string, c: string)
    requires Plain(name) && Plain(a) && Plain(b) && Plain(c)
    ensures SplitComponents(name + "(" + a + "," + b + "," + c + ")") == [name + a, b, c]
  {
    var color := name + "(" + a + "," + b + "," + c + ")";
    SplitFunctional(name, a, b, c);
    var parts := SplitComponents(color);
    assert parts[0] == name + a by { HeadWithoutParens(name, a); }
    assert parts[1] == b by { NoParens(b); }
    assert parts[2] == c by { BracketWithoutParens(c, ')'); }
  }

  lemma SplitFunctional(name: string, a: string, b: string, c: string)
    requires Plain(name) && Plain(a) && Plain(b) && Plain(c)
    ensures Split(name + "(" + a + "," + b + "," + c + ")", ',') == [name + "(" + a, b, c + ")"]
  {
    var head := name + "(" + a;
    var tail := c + ")";
    Assoc(head + "," + b + ",", c, ")");
    SplitThree(head, b, tail);
  }

  lemma HeadWithoutParens(name: string, a: string)
    requires Plain(name) && Plain(a)
    ensures RemoveParens(name + "(" + a) == name + a
  {
    RemoveParensAppend(name + "(", a);
    BracketWithoutParens(name, '(');
    NoParens(a);
  }

  /** A parenthesis appended to a text without any is removed, and the text
      is kept. */
  lemma BracketWithoutParens(s: string, bracket: char)
    requires '(' !in s && ')' !in s
    requires bracket == '(' || bracket == ')'
    ensures RemoveParens(s + [bracket]) == s
  {
    RemoveParensAppend(s, [bracket]);
    NoParens(s);
    assert RemoveParens([bracket]) == "";
  }

  lemma NameIsPlain(name: string)
    requires name in {"rgb", "hsl"}
    ensures Plain(name)
  {
  }

  /** Either prefix picks its branch, and `#` does not apply. */
  lemma NameDispatch(name: string, rest: string, alpha: string)
    requires name in {"rgb", "hsl"}
    ensures AddColorAlpha(name + "(" + rest, alpha) ==
      FromFunctional(if name == "rgb" then "rgba" else "hsla", name + "(" + rest, alpha)
    ensures AddColorAlphaFixed(name + "(" + rest, alpha) ==
      FromArguments(if name == "rgb" then "rgba" else "hsla", name + "(" + rest, alpha)
  {
    var color := name + "(" + rest;
    assert color[..3] == name;
    assert StartsWith(color, name);
    assert !StartsWith(color, "#") by { assert color[..1][0] == name[0]; }
    if name == "hsl" {
      assert !StartsWith(color, "rgb") by { assert color[..3][0] == 'h'; }
    }
  }

  /** Three pieces without commas, joined by commas, split back into the three. */
  lemma SplitThree(a: string, b: string, c: string)
    requires ',' !in a && ',' !in b && ',' !in c
    ensures Split(a + "," + b + "," + c, ',') == [a, b, c]
  {
    assert a + "," + b + "," + c == a + [','] + (b + [','] + c);
    SplitConcat(a, b + [','] + c, ',');
    SplitConcat(b, c, ',');
    SplitNoSeparator(c, ',');
  }

  /** The concrete instance: `rgb(1,2,3)` with alpha `0.5`. */
  lemma RgbKeepsFunctionName()
    ensures AddColorAlpha("rgb(1,2,3)", "0.5") == "rgba(rgb1, 2, 3, 0.5)"
  {
    calc {
      AddColorAlpha("rgb(1,2,3)", "0.5");
    == { assert "rgb(1,2,3)" == "rgb" + "(" + "1" + "," + "2" + "," + "3" + ")"; }
      AddColorAlpha("rgb" + "(" + "1" + "," + "2" + "," + "3" + ")", "0.5");
    == { AsWrittenFunctionalColour("rgb", "1", "2", "3", "0.5"); }
      Render("rgba", "rgb" + "1", "2", "3", "0.5");
    == { assert "rgb" + "1" == "rgb1"; }
      Render("rgba", "rgb1", "2", "3", "0.5");
    ==
      "rgba(rgb1, 2, 3, 0.5)";
    }
  }

  /** The text between the first `(` and the end, without parentheses: what
      the components of a functional colour are meant to be split from. */
  function Arguments(color: string): string {
    if '(' !in color then RemoveParens(color)
    else if color[0] == '(' then RemoveParens(color[1..])
    else Arguments(color[1..])
  }

  /** The corrected `rgb`/`hsl` branches: components split from the arguments. */
  function FromArguments(fn: string, color: string, alpha: string): string {
    var parts := Split(Arguments(color), ',');
    Render(fn, PartText(parts, 0), PartText(parts, 1), PartText(parts, 2), alpha)
  }

  /** `addColorAlpha` with the function name left out of the components. */
  function AddColorAlphaFixed(color: string, alpha: string): string {
    if StartsWith(color, "#") then FromHex(color, alpha)
    else if StartsWith(color, "rgb") then FromArguments("rgba", color, alpha)
    else if StartsWith(color, "hsl") then FromArguments("hsla", color, alpha)
    else color
  }

  /** `rgb(a,b,c)` becomes `rgba(a, b, c, alpha)` and `hsl(a,b,c)` becomes
      `hsla(a, b, c, alpha)`. */
  lemma FixedFunctionalColour(name: string, a: string, b: string, c: string, alpha: string)
    requires name in {"rgb", "hsl"}
    requires Plain(a) && Plain(b) && Plain(c)
    ensures AddColorAlphaFixed(name + "(" + a + "," + b + "," + c + ")", alpha) ==
      Render(if name == "rgb" then "rgba" else "hsla", a, b, c, alpha)
  {
    var fn := if name == "rgb" then "rgba" else "hsla";
    var inner := a + "," + b + "," + c;
    var color := name + "(" + a + "," + b + "," + c + ")";
    Reassociate(name, a, b, c);
    NameDispatch(name, inner + ")", alpha);
    NameIsPlain(name);
    FixedArguments(name, a, b, c);
    SplitThree(a, b, c);
    var parts := Split(inner, ',');
    assert FromArguments(fn, color, alpha) == Render(fn, parts[0], parts[1], parts[2], alpha);
  }

  lemma FixedArguments(name: string, a: string, b: string, c: string)
    requires Plain(name) && Plain(a) && Plain(b) && Plain(c)
    ensures Arguments(name + "(" + a + "," + b + "," + c + ")") == a + "," + b + "," + c
  {
    var inner := a + "," + b + "," + c;
    Reassociate(name, a, b, c);
    ArgumentsAfterName(name, inner + ")");
    JoinedWithoutParens(a, b, c);
    BracketWithoutParens(inner, ')');
  }

  lemma JoinedWithoutParens(a: string, b: string, c: string)
    requires Plain(a) && Plain(b) && Plain(c)
    ensures '(' !in a + "," + b + "," + c && ')' !in a + "," + b + "," + c
  {
  }

  lemma Assoc(x: string, y: string, z: string)
    ensures x + y + z == x + (y + z)
  {
  }

  /** `name(a,b,c)` read as the name, `(`, and everything after it. */
  lemma Reassociate(name: string, a: string, b: string, c: string)
    ensures name + "(" + a + "," + b + "," + c + ")" == name + "(" + (a + "," + b + "," + c + ")")
  {
    var p := name + "(";
    Assoc(p, a, ",");
    Assoc(p, a + ",", b);
    Assoc(p, a + "," + b, ",");
    Assoc(p, a + "," + b + ",", c);
    Assoc(p, a + "," + b + "," + c, ")");
  }

  lemma {:induction false} ArgumentsAfterName(name: string, inner: string)
    requires '(' !in name
    ensures Arguments(name + "(" + inner) == RemoveParens(inner)
  {
    if name == [] {
      assert ("(" + inner)[1..] == inner;
    } else {
      assert (name + "(" + inner)[1..] == name[1..] + "(" + inner;
      ArgumentsAfterName(name[1..], inner);
    }
  }

  lemma {:induction false} RemoveParensAppend(s: string, t: string)
    ensures RemoveParens(s + t) == RemoveParens(s) + RemoveParens(t)
  {
    if s != [] {
      assert (s + t)[1..] == s[1..] + t;
      RemoveParensAppend(s[1..], t);
    } else {
      assert s + t == t;
    }
  }

  lemma {:induction false} NoParens(s: string)
    requires '(' !in s && ')' !in s
    ensures RemoveParens(s) == s
  {
    if s != [] {
      NoParens(s[1..]);
      assert [s[0]] + s[1..] == s;
    }
  }
}
