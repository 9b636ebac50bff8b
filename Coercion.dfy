/** How the interpreter turns dynamic values into numbers, text and truth values:
    `parseNumericInput`, `String(value)`, `!!value` and `JSON.stringify(value)`. */
module Coercion {
  import opened Types
  import opened Decimal

  /** The ECMAScript WhiteSpace and LineTerminator code points, which `String.prototype.trim` strips. */
  predicate IsJsWhitespace(c: char)
  {
    || c == '\t' || c == '\n' || c == '\U{000B}' || c == '\U{000C}' || c == '\r' || c == ' '
    || c == '\U{00A0}' || c == '\U{1680}' || ('\U{2000}' <= c <= '\U{200A}')
    || c == '\U{2028}' || c == '\U{2029}' || c == '\U{202F}' || c == '\U{205F}'
    || c == '\U{3000}' || c == '\U{FEFF}'
  }

  predicate AllWhitespace(s: string)
  {
    forall i :: 0 <= i < |s| ==> IsJsWhitespace(s[i])
  }

  function TrimStart(s: string): (r: string)
    ensures |r| <= |s| && r == s[|s| - |r|..]
    ensures AllWhitespace(s[..|s| - |r|])
    ensures r == [] || !IsJsWhitespace(r[0])
  {
    if s != [] && IsJsWhitespace(s[0]) then TrimStart(s[1..]) else s
  }

  function TrimEnd(s: string): (r: string)
    ensures |r| <= |s| && r == s[..|r|]
    ensures AllWhitespace(s[|r|..])
    ensures r == [] || !IsJsWhitespace(r[|r| - 1])
  {
    if s != [] && IsJsWhitespace(s[|s| - 1]) then TrimEnd(s[..|s| - 1]) else s
  }

  /** `s.trim()`: empty exactly when `s` is blank, and otherwise neither starts nor ends
      with white space. */
  function Trim(s: string): (r: string)
    ensures r == [] <==> AllWhitespace(s)
    ensures r != [] ==> !IsJsWhitespace(r[0]) && !IsJsWhitespace(r[|r| - 1])
  {
    var front := TrimStart(s);
    var r := TrimEnd(front);
    BlankWhenTrimmedAway(s, front, r);
    r
  }

  lemma BlankWhenTrimmedAway(s: string, front: string, r: string)
    requires |front| <= |s| && front == s[|s| - |front|..] && AllWhitespace(s[..|s| - |front|])
    requires |r| <= |front| && r == front[..|r|] && AllWhitespace(front[|r|..])
    ensures r == [] ==> AllWhitespace(s)
  {
    if r == [] {
      var k := |s| - |front|;
      forall i | 0 <= i < |s| ensures IsJsWhitespace(s[i]) {
        if i < k {
          assert s[i] == s[..k][i];
        } else {
          assert s[i] == front[i - k];
          assert front[i - k] == front[|r|..][i - k];
        }
      }
    }
  }

  lemma {:induction false} TrimStartPadded(pad: string, t: string)
    requires AllWhitespace(pad)
    requires t == [] || !IsJsWhitespace(t[0])
    ensures TrimStart(pad + t) == t
    decreases |pad|
  {
    if pad != [] {
      assert (pad + t)[1..] == pad[1..] + t;
      TrimStartPadded(pad[1..], t);
    } else {
      assert pad + t == t;
    }
  }

  lemma {:induction false} TrimEndPadded(t: string, pad: string)
    requires AllWhitespace(pad)
    requires t == [] || !IsJsWhitespace(t[|t| - 1])
    ensures TrimEnd(t + pad) == t
    decreases |pad|
  {
    if pad != [] {
      assert (t + pad)[..|t + pad| - 1] == t + pad[..|pad| - 1];
      TrimEndPadded(t, pad[..|pad| - 1]);
    } else {
      assert t + pad == t;
    }
  }

  /** Trimming removes exactly the padding around a text that has no white space at its ends. */
  lemma TrimPadded(before: string, t: string, after: string)
    requires AllWhitespace(before) && AllWhitespace(after)
    requires t != [] ==> !IsJsWhitespace(t[0]) && !IsJsWhitespace(t[|t| - 1])
    ensures Trim(before + t + after) == t
  {
    if t == [] {
      assert AllWhitespace(before + t + after);
    } else {
      assert before + t + after == before + (t + after);
      TrimStartPadded(before, t + after);
      TrimEndPadded(t, after);
    }
  }

  /** `parseNumericInput`: undefined and blank or non-numeric text give no number; booleans
      give 1 or 0; numbers pass through; a function or an object gives no number. */
  function ParseNumericInput(v: Value): (r: Option<int>)
    ensures r.Some? ==> v.Num? || v.Bool? || (v.Str? && !AllWhitespace(v.s))
  {
    match v
    case Undefined => None
    case Num(n) => Some(n)
    case Str(s) =>
      var trimmed := Trim(s);
      if trimmed == [] then None else ParseInteger(trimmed)
    case Bool(b) => Some(if b then 1 else 0)
    case NativeFunction(_) => None
    case EmptyObject => None
  }

  /** The numeral of an integer, with any white space around it, parses back to that integer. */
  lemma ParseNumericInputOfNumeral(before: string, i: int, after: string)
    requires AllWhitespace(before) && AllWhitespace(after)
    ensures ParseNumericInput(Str(before + IntToString(i) + after)) == Some(i)
  {
    var t := IntToString(i);
    assert !IsJsWhitespace(t[0]) && !IsJsWhitespace(t[|t| - 1]) by {
      if i < 0 {
        assert t == "-" + NatToString(-i);
        assert t[|t| - 1] == NatToString(-i)[|NatToString(-i)| - 1];
      }
    }
    TrimPadded(before, t, after);
    ParseIntToString(i);
  }

  /** Blank text is never a number. */
  lemma ParseNumericInputOfBlank(s: string)
    requires AllWhitespace(s)
    ensures ParseNumericInput(Str(s)) == None
  {
  }

  /** `String(value)`. A built-in function shows its source text as V8 writes it, and a plain
      object shows as `[object Object]`. */
  function ToJsString(v: Value): string
  {
    match v
    case Undefined => "undefined"
    case Str(s) => s
    case Num(n) => IntToString(n)
    case Bool(b) => if b then "true" else "false"
    case NativeFunction(f) => "function " + f + "() { [native code] }"
    case EmptyObject => "[object Object]"
  }

  /** `String(value ?? '')`, what PrintString prints. */
  function PrintText(v: Value): (r: string)
    ensures r == [] <==> v == Undefined || v == Str("")
  {
    if v.Undefined? then "" else ToJsString(v)
  }

  /** `!!value`. */
  predicate Truthy(v: Value)
    ensures !Truthy(v) <==> v == Undefined || v == Str("") || v == Num(0) || v == Bool(false)
    ensures Truthy(v) ==> PrintText(v) != []
  {
    match v
    case Undefined => false
    case Str(s) => s != ""
    case Num(n) => n != 0
    case Bool(b) => b
    case NativeFunction(_) => true
    case EmptyObject => true
  }

  function HexDigit(d: nat): (c: char)
    requires d < 16
  {
    if d < 10 then DigitChar(d) else ('a' as int + (d - 10)) as char
  }

  /** How `JSON.stringify` writes one character of a string. */
  function EscapeChar(c: char): string
  {
    if c == '\"' then "\\\""
    else if c == '\\' then "\\\\"
    else if c == '\U{0008}' then "\\b"
    else if c == '\U{000C}' then "\\f"
    else if c == '\n' then "\\n"
    else if c == '\r' then "\\r"
    else if c == '\t' then "\\t"
    else if (c as int) < 0x20 then "\\u00" + [HexDigit(c as int / 16), HexDigit(c as int % 16)]
    else [c]
  }

  function EscapeJson(s: string): string
  {
    if s == [] then [] else EscapeChar(s[0]) + EscapeJson(s[1..])
  }

  function HexValue(c: char): int
  {
    if '0' <= c <= '9' then c as int - '0' as int
    else if 'a' <= c <= 'f' then c as int - 'a' as int + 10
    else -1
  }

  /** Reads back the escaped body of a JSON string; the inverse of `EscapeJson`. */
  function UnescapeJson(s: string): Option<string>
  {
    if s == [] then Some([])
    else if s[0] != '\\' then
      (match UnescapeJson(s[1..]) case None => None case Some(rest) => Some([s[0]] + rest))
    else if |s| < 2 then None
    else
      var e := s[1];
      var simple :=
        if e == '\"' then Some('\"') else if e == '\\' then Some('\\')
        else if e == 'b' then Some('\U{0008}') else if e == 'f' then Some('\U{000C}')
        else if e == 'n' then Some('\n') else if e == 'r' then Some('\r')
        else if e == 't' then Some('\t') else None;
      if simple.Some? then
        (match UnescapeJson(s[2..]) case None => None case Some(rest) => Some([simple.value] + rest))
      else if e == 'u' && |s| >= 6 && s[2] == '0' && s[3] == '0'
           && 0 <= HexValue(s[4]) && 0 <= HexValue(s[5]) then
        (match UnescapeJson(s[6..])
         case None => None
         case Some(rest) => Some([(HexValue(s[4]) * 16 + HexValue(s[5])) as char] + rest))
      else None
  }

  lemma {:induction false} UnescapeEscapeChar(c: char, rest: string)
    ensures UnescapeJson(EscapeChar(c) + rest) ==
      (match UnescapeJson(rest) case None => None case Some(r) => Some([c] + r))
  {
    var e := EscapeChar(c);
    if c == '\"' || c == '\\' || c == '\U{0008}' || c == '\U{000C}' || c == '\n' || c == '\r' || c == '\t' {
      assert (e + rest)[2..] == rest;
    } else if (c as int) < 0x20 {
      var hi, lo := c as int / 16, c as int % 16;
      assert hi < 2;
      assert HexValue(HexDigit(hi)) == hi;
      assert HexValue(HexDigit(lo)) == lo;
      assert (e + rest)[6..] == rest;
    } else {
      assert (e + rest)[1..] == rest;
    }
  }

  /** Escaping a string for JSON loses nothing: reading the escapes back gives the string. */
  lemma {:induction false} UnescapeEscapeJson(s: string)
    ensures UnescapeJson(EscapeJson(s)) == Some(s)
  {
    if s != [] {
      UnescapeEscapeChar(s[0], EscapeJson(s[1..]));
      UnescapeEscapeJson(s[1..]);
      assert [s[0]] + s[1..] == s;
    }
  }

  /** `JSON.stringify(value)` as a template literal shows it: undefined, and a function, which
      JSON cannot represent, show as `undefined`. */
  function JsonText(v: Value): (r: string)
    ensures r == "undefined" <==> v.Undefined? || v.NativeFunction?
    ensures v.Str? ==> |r| >= 2 && r[0] == '\"' && r[|r| - 1] == '\"' && UnescapeJson(r[1..|r| - 1]) == Some(v.s)
  {
    match v
    case Undefined => "undefined"
    case Str(s) =>
      UnescapeEscapeJson(s);
      var q := "\"" + EscapeJson(s) + "\"";
      assert q[1..|q| - 1] == EscapeJson(s);
      q
    case Num(n) => IntToString(n)
    case Bool(b) => if b then "true" else "false"
    case NativeFunction(_) => "undefined"
    case EmptyObject => "{}"
  }
}
