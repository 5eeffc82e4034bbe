/**
  TEXT escaping for SUMMARY values (section 3.3.11 of RFC 5545): four
  global replacements applied one after the other, backslash first.
 */
module Escaping {

  /** `s.replace(/c/g, replacement)` for a single character c. */
  function ReplaceAll(s: string, c: char, replacement: string): (r: string)
    ensures c !in replacement ==> c !in r
    ensures |r| >= |s| - (if |replacement| == 0 then |s| else 0)
    decreases |s|
  {
    if |s| == 0 then []
    else (if s[0] == c then replacement else [s[0]]) + ReplaceAll(s[1..], c, replacement)
  }

  /** `escapeICSText`: backslash, semicolon, comma, then line feed. */
  function EscapeText(text: string): string {
    var step1 := ReplaceAll(text, '\\', "\\\\");
    var step2 := ReplaceAll(step1, ';', "\\;");
    var step3 := ReplaceAll(step2, ',', "\\,");
    ReplaceAll(step3, '\n', "\\n")
  }

  /** The escape of one character: a backslash in front of the four specials, LF written as "\n". */
  function EscapeChar(c: char): (r: string)
    ensures 1 <= |r| <= 2
    ensures |r| == 2 <==> c in {'\\', ';', ',', '\n'}
  {
    if c == '\\' then "\\\\"
    else if c == ';' then "\\;"
    else if c == ',' then "\\,"
    else if c == '\n' then "\\n"
    else [c]
  }

  /** The character-by-character escape: every character replaced by its escape. */
  function EscapeByChar(s: string): string
    decreases |s|
  {
    if |s| == 0 then [] else EscapeChar(s[0]) + EscapeByChar(s[1..])
  }

  lemma {:induction false} ReplaceAllAppend(a: string, b: string, c: char, replacement: string)
    ensures ReplaceAll(a + b, c, replacement) == ReplaceAll(a, c, replacement) + ReplaceAll(b, c, replacement)
    decreases |a|
  {
    if |a| == 0 {
      assert a + b == b;
    } else {
      assert (a + b)[1..] == a[1..] + b;
      ReplaceAllAppend(a[1..], b, c, replacement);
    }
  }

  lemma ReplaceSingle(c: char, d: char, replacement: string)
    ensures ReplaceAll([c], d, replacement) == if c == d then replacement else [c]
  {
    assert [c][1..] == [];
  }

  lemma {:induction false} ReplaceNone(s: string, d: char, replacement: string)
    requires d !in s
    ensures ReplaceAll(s, d, replacement) == s
    decreases |s|
  {
    if |s| > 0 {
      ReplaceNone(s[1..], d, replacement);
      assert [s[0]] + s[1..] == s;
    }
  }

  /** The four passes on a single character give its escape. */
  lemma EscapeOne(c: char)
    ensures EscapeText([c]) == EscapeChar(c)
  {
    ReplaceSingle(c, '\\', "\\\\");
    var s1 := ReplaceAll([c], '\\', "\\\\");
    if c == '\\' {
      ReplaceNone(s1, ';', "\\;");
      ReplaceNone(s1, ',', "\\,");
      ReplaceNone(s1, '\n', "\\n");
    } else {
      ReplaceSingle(c, ';', "\\;");
      var s2 := ReplaceAll(s1, ';', "\\;");
      if c == ';' {
        ReplaceNone(s2, ',', "\\,");
        ReplaceNone(s2, '\n', "\\n");
      } else {
        ReplaceSingle(c, ',', "\\,");
        var s3 := ReplaceAll(s2, ',', "\\,");
        if c == ',' {
          ReplaceNone(s3, '\n', "\\n");
        } else {
          ReplaceSingle(c, '\n', "\\n");
        }
      }
    }
  }

  lemma EscapeTextAppend(a: string, b: string)
    ensures EscapeText(a + b) == EscapeText(a) + EscapeText(b)
  {
    var s1a := ReplaceAll(a, '\\', "\\\\");
    var s1b := ReplaceAll(b, '\\', "\\\\");
    ReplaceAllAppend(a, b, '\\', "\\\\");
    var s2a := ReplaceAll(s1a, ';', "\\;");
    var s2b := ReplaceAll(s1b, ';', "\\;");
    ReplaceAllAppend(s1a, s1b, ';', "\\;");
    var s3a := ReplaceAll(s2a, ',', "\\,");
    var s3b := ReplaceAll(s2b, ',', "\\,");
    ReplaceAllAppend(s2a, s2b, ',', "\\,");
    ReplaceAllAppend(s3a, s3b, '\n', "\\n");
  }

  /**
    The four passes are one character-by-character map: since the
    backslash pass runs first, the backslashes added by later passes are
    never doubled.
   */
  lemma {:induction false} EscapeIsPerChar(s: string)
    ensures EscapeText(s) == EscapeByChar(s)
    decreases |s|
  {
    if |s| == 0 {
    } else {
      assert s == [s[0]] + s[1..];
      EscapeTextAppend([s[0]], s[1..]);
      EscapeOne(s[0]);
      EscapeIsPerChar(s[1..]);
    }
  }

  /** A character that needs escaping. */
  predicate Special(c: char) {
    c == '\\' || c == ';' || c == ',' || c == '\n'
  }

  /** Escaped text has no line feed and each ';' or ',' directly follows a backslash. */
  lemma {:induction false} EscapedShape(s: string)
    ensures '\n' !in EscapeByChar(s)
    ensures forall i :: 0 <= i < |EscapeByChar(s)| && EscapeByChar(s)[i] in {';', ','} ==>
              i > 0 && EscapeByChar(s)[i - 1] == '\\'
    decreases |s|
  {
    if |s| > 0 {
      EscapedShape(s[1..]);
      var e := EscapeChar(s[0]);
      var rest := EscapeByChar(s[1..]);
      assert EscapeByChar(s) == e + rest;
      forall i | 0 <= i < |e + rest| && (e + rest)[i] in {';', ','}
        ensures i > 0 && (e + rest)[i - 1] == '\\'
      {
        if i >= |e| {
          assert rest[i - |e|] in {';', ','};
        }
      }
    }
  }

  /** The same facts about `escapeICSText` itself. */
  lemma EscapeTextShape(s: string)
    ensures '\n' !in EscapeText(s)
    ensures forall i :: 0 <= i < |EscapeText(s)| && EscapeText(s)[i] in {';', ','} ==>
              i > 0 && EscapeText(s)[i - 1] == '\\'
  {
    EscapeIsPerChar(s);
    EscapedShape(s);
  }

  /** Text without the four specials passes through unchanged. */
  lemma {:induction false} EscapeIdentity(s: string)
    requires Plain(s)
    ensures EscapeText(s) == s
    decreases |s|
  {
    EscapeIsPerChar(s);
    PlainByChar(s);
  }

  lemma {:induction false} PlainByChar(s: string)
    requires Plain(s)
    ensures EscapeByChar(s) == s
    decreases |s|
  {
    if |s| > 0 {
      PlainByChar(s[1..]);
      assert [s[0]] + s[1..] == s;
    }
  }

  /** The number of characters that need escaping. */
  function SpecialCount(s: string): nat
    decreases |s|
  {
    if |s| == 0 then 0 else (if Special(s[0]) then 1 else 0) + SpecialCount(s[1..])
  }

  /** Each special character adds one backslash; nothing else changes length. */
  lemma {:induction false} EscapeLength(s: string)
    ensures |EscapeText(s)| == |s| + SpecialCount(s)
  {
    EscapeIsPerChar(s);
    ByCharLength(s);
  }

  lemma {:induction false} ByCharLength(s: string)
    ensures |EscapeByChar(s)| == |s| + SpecialCount(s)
    decreases |s|
  {
    if |s| > 0 {
      ByCharLength(s[1..]);
    }
  }

  /**
    Reading TEXT back as section 3.3.11 of RFC 5545 describes: a backslash
    followed by a backslash, ';', ',', 'n' or 'N' stands for that
    character, 'n' and 'N' for a line feed.
   */
  function Unescape(r: string): string
    decreases |r|
  {
    if |r| == 0 then []
    else if r[0] == '\\' && |r| >= 2 && r[1] in {'\\', ';', ','} then [r[1]] + Unescape(r[2..])
    else if r[0] == '\\' && |r| >= 2 && r[1] in {'n', 'N'} then "\n" + Unescape(r[2..])
    else [r[0]] + Unescape(r[1..])
  }

  /** An escaped SUMMARY reads back as the original description. */
  lemma {:induction false} UnescapeEscape(s: string)
    ensures Unescape(EscapeText(s)) == s
  {
    EscapeIsPerChar(s);
    UnescapeByChar(s);
  }

  lemma {:induction false} UnescapeByChar(s: string)
    ensures Unescape(EscapeByChar(s)) == s
    decreases |s|
  {
    if |s| > 0 {
      UnescapeByChar(s[1..]);
      var e := EscapeChar(s[0]);
      var rest := EscapeByChar(s[1..]);
      var r := e + rest;
      assert EscapeByChar(s) == r;
      if |e| == 2 {
        assert r[2..] == rest;
      } else {
        assert r[1..] == rest;
      }
      assert [s[0]] + s[1..] == s;
    }
  }

  /** Text none of whose characters needs escaping. */
  predicate Plain(s: string) {
    forall i :: 0 <= i < |s| ==> !Special(s[i])
  }

  /**
    Text made of plain pieces joined by ';', ',' and a line break:
    separators gain a backslash, the line break becomes the two characters
    '\' 'n', the plain pieces stay as they are.
   */
  lemma EscapeSeparators(p1: string, p2: string, p3: string, p4: string)
    requires Plain(p1) && Plain(p2) && Plain(p3) && Plain(p4)
    ensures EscapeText(p1 + ";" + p2 + "," + p3 + "\n" + p4)
         == p1 + "\\;" + p2 + "\\," + p3 + "\\n" + p4
  {
    var s := p1 + ";" + p2 + "," + p3 + "\n" + p4;
    EscapeIsPerChar(s);
    ByCharAppend(p1 + ";" + p2 + "," + p3 + "\n", p4);
    ByCharAppend(p1 + ";" + p2 + "," + p3, "\n");
    ByCharAppend(p1 + ";" + p2 + ",", p3);
    ByCharAppend(p1 + ";" + p2, ",");
    ByCharAppend(p1 + ";", p2);
    ByCharAppend(p1, ";");
    PlainByChar(p1);
    PlainByChar(p2);
    PlainByChar(p3);
    PlainByChar(p4);
    assert EscapeByChar(";") == "\\;";
    assert EscapeByChar(",") == "\\,";
    assert EscapeByChar("\n") == "\\n";
  }

  lemma EscapeExample()
    ensures EscapeText("Plan A" + ";" + " review" + "," + " notes" + "\n" + "follow-up")
         == "Plan A" + "\\;" + " review" + "\\," + " notes" + "\\n" + "follow-up"
  {
    EscapeSeparators("Plan A", " review", " notes", "follow-up");
  }

  lemma {:induction false} ByCharAppend(a: string, b: string)
    ensures EscapeByChar(a + b) == EscapeByChar(a) + EscapeByChar(b)
    decreases |a|
  {
    if |a| == 0 {
      assert a + b == b;
    } else {
      assert (a + b)[1..] == a[1..] + b;
      ByCharAppend(a[1..], b);
    }
  }

  /**
    A carriage return is not one of the four specials: it reaches the
    output as it is, where it can end a content line early.
   */
  lemma CarriageReturnKept(s: string, i: int)
    requires 0 <= i < |s| && s[i] == '\r'
    ensures '\r' in EscapeText(s)
  {
    EscapeIsPerChar(s);
    assert s == s[..i] + [s[i]] + s[i + 1..];
    ByCharAppend(s[..i] + [s[i]], s[i + 1..]);
    ByCharAppend(s[..i], [s[i]]);
    assert EscapeByChar([s[i]]) == "\r";
  }
}
