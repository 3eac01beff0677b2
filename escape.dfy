/** `window.escapeString` of the admin page: replaces the five characters
    `&`, `<`, `>`, `"` and `'` by their character references, for
    insertion into HTML. The function is modelled as written, a
    chain of five global `replace` calls, and proved equal to a
    character-by-character reference definition, about which the remaining
    properties are proved. */
module Escape {
  import opened Wrappers
  import opened JsValue

  const Amp := "&amp;"
  const Lt := "&lt;"
  const Gt := "&gt;"
  const Quot := "&quot;"
  const Apos := "&#39;"

  /** The five characters the function escapes. */
  predicate IsSpecial(c: char)
  {
    c == '&' || c == '<' || c == '>' || c == '"' || c == '\''
  }

  /** `s.replace(/c/g, rep)`: every occurrence of `c` replaced by `rep`,
      scanning left to right over the original text only. */
  function ReplaceAll(s: string, c: char, rep: string): (r: string)
    ensures rep != [] ==> |r| >= |s|
  {
    if s == [] then []
    else (if s[0] == c then rep else [s[0]]) + ReplaceAll(s[1..], c, rep)
  }

  /** The chain of replacements exactly as the source orders it. */
  function EscapeChain(s: string): (r: string)
    ensures |r| >= |s|
  {
    ReplaceAll(ReplaceAll(ReplaceAll(ReplaceAll(ReplaceAll(
      s, '&', Amp), '<', Lt), '>', Gt), '"', Quot), '\'', Apos)
  }

  /** `escapeString(str)`: the empty string for a falsy argument (absent or
      empty), otherwise the replacement chain applied to the text. */
  function EscapeString(str: Option<string>): (r: string)
    ensures !Truthy(str) ==> r == []
  {
    if !Truthy(str) then [] else EscapeChain(str.value)
  }

  // ---------------------------------------------------------------------
  // Reference definition: one entity per special character.

  function EscapeChar(c: char): (r: string)
    ensures |r| >= 1
    ensures IsSpecial(c) <==> r != [c]
  {
    match c
    case '&' => Amp
    case '<' => Lt
    case '>' => Gt
    case '"' => Quot
    case '\'' => Apos
    case _ => [c]
  }

  function EscapeText(s: string): string
  {
    if s == [] then [] else EscapeChar(s[0]) + EscapeText(s[1..])
  }

  /** Decoding of the five entities, left to right; every other character
      is copied. */
  function Unescape(t: string): string
    decreases |t|
  {
    if t == [] then []
    else if |t| >= 5 && t[..5] == Amp then ['&'] + Unescape(t[5..])
    else if |t| >= 4 && t[..4] == Lt then ['<'] + Unescape(t[4..])
    else if |t| >= 4 && t[..4] == Gt then ['>'] + Unescape(t[4..])
    else if |t| >= 6 && t[..6] == Quot then ['"'] + Unescape(t[6..])
    else if |t| >= 5 && t[..5] == Apos then ['\''] + Unescape(t[5..])
    else [t[0]] + Unescape(t[1..])
  }

  /** `t` begins with one of the five entities. */
  predicate BeginsEntity(t: string)
  {
    (|t| >= 5 && t[..5] == Amp) || (|t| >= 4 && t[..4] == Lt) ||
    (|t| >= 4 && t[..4] == Gt) || (|t| >= 6 && t[..6] == Quot) ||
    (|t| >= 5 && t[..5] == Apos)
  }

  /** Every `&` in `t` is the start of an entity. */
  predicate AmpsBeginEntities(t: string)
  {
    forall i :: 0 <= i < |t| && t[i] == '&' ==> BeginsEntity(t[i..])
  }

  // ---------------------------------------------------------------------
  // The chain as written equals the reference definition.

  lemma {:induction false} ReplaceAllConcat(a: string, b: string, c: char, rep: string)
    ensures ReplaceAll(a + b, c, rep) == ReplaceAll(a, c, rep) + ReplaceAll(b, c, rep)
  {
    if a == [] {
      assert a + b == b;
    } else {
      assert (a + b)[0] == a[0];
      assert (a + b)[1..] == a[1..] + b;
      ReplaceAllConcat(a[1..], b, c, rep);
    }
  }

  lemma {:induction false} ReplaceAllAbsent(s: string, c: char, rep: string)
    requires forall i :: 0 <= i < |s| ==> s[i] != c
    ensures ReplaceAll(s, c, rep) == s
  {
    if s != [] {
      ReplaceAllAbsent(s[1..], c, rep);
    }
  }

  lemma ReplaceAllSingle(x: char, c: char, rep: string)
    ensures ReplaceAll([x], c, rep) == if x == c then rep else [x]
  {
    assert [x][1..] == [];
  }

  // The chain on one character, one lemma per kind of character.

  /** The last four replacements leave a text without markup characters
      as it is. */
  lemma MarkupPassesKeep(s: string)
    requires forall i :: 0 <= i < |s| ==> s[i] != '<' && s[i] != '>' && s[i] != '"' && s[i] != '\''
    ensures ReplaceAll(ReplaceAll(ReplaceAll(ReplaceAll(s, '<', Lt), '>', Gt), '"', Quot), '\'', Apos) == s
  {
    ReplaceAllAbsent(s, '<', Lt);
    ReplaceAllAbsent(s, '>', Gt);
    ReplaceAllAbsent(s, '"', Quot);
    ReplaceAllAbsent(s, '\'', Apos);
  }

  lemma ChainOfAmp()
    ensures EscapeChain("&") == Amp
  {
    ReplaceAllSingle('&', '&', Amp);
    MarkupPassesKeep(Amp);
  }

  lemma ChainOfLt()
    ensures EscapeChain("<") == Lt
  {
    var s1 := ReplaceAll("<", '&', Amp);
    assert s1 == "<" by { ReplaceAllSingle('<', '&', Amp); }
    var s2 := ReplaceAll(s1, '<', Lt);
    assert s2 == Lt by { ReplaceAllSingle('<', '<', Lt); }
    ReplaceAllAbsent(Lt, '>', Gt);
    ReplaceAllAbsent(Lt, '"', Quot);
    ReplaceAllAbsent(Lt, '\'', Apos);
  }

  lemma ChainOfGt()
    ensures EscapeChain(">") == Gt
  {
    var s2 := ReplaceAll(ReplaceAll(">", '&', Amp), '<', Lt);
    assert s2 == ">" by {
      ReplaceAllSingle('>', '&', Amp);
      ReplaceAllSingle('>', '<', Lt);
    }
    var s3 := ReplaceAll(s2, '>', Gt);
    assert s3 == Gt by { ReplaceAllSingle('>', '>', Gt); }
    ReplaceAllAbsent(Gt, '"', Quot);
    ReplaceAllAbsent(Gt, '\'', Apos);
  }

  lemma ChainOfQuot()
    ensures EscapeChain("\"") == Quot
  {
    var s3 := ReplaceAll(ReplaceAll(ReplaceAll("\"", '&', Amp), '<', Lt), '>', Gt);
    assert s3 == "\"" by {
      ReplaceAllSingle('"', '&', Amp);
      ReplaceAllSingle('"', '<', Lt);
      ReplaceAllSingle('"', '>', Gt);
    }
    var s4 := ReplaceAll(s3, '"', Quot);
    assert s4 == Quot by { ReplaceAllSingle('"', '"', Quot); }
    ReplaceAllAbsent(Quot, '\'', Apos);
  }

  lemma ChainOfApos()
    ensures EscapeChain("'") == Apos
  {
    var s4 := ReplaceAll(ReplaceAll(ReplaceAll(ReplaceAll("'", '&', Amp), '<', Lt), '>', Gt), '"', Quot);
    assert s4 == "'" by {
      ReplaceAllSingle('\'', '&', Amp);
      ReplaceAllSingle('\'', '<', Lt);
      ReplaceAllSingle('\'', '>', Gt);
      ReplaceAllSingle('\'', '"', Quot);
    }
    ReplaceAllSingle('\'', '\'', Apos);
  }

  lemma ChainOfPlain(c: char)
    requires !IsSpecial(c)
    ensures EscapeChain([c]) == [c]
  {
    ReplaceAllSingle(c, '&', Amp);
    ReplaceAllSingle(c, '<', Lt);
    ReplaceAllSingle(c, '>', Gt);
    ReplaceAllSingle(c, '"', Quot);
    ReplaceAllSingle(c, '\'', Apos);
  }

  /** The chain on a one-character string gives that character's entity. */
  lemma ChainOfChar(c: char)
    ensures EscapeChain([c]) == EscapeChar(c)
  {
    if c == '&' { ChainOfAmp(); }
    else if c == '<' { ChainOfLt(); }
    else if c == '>' { ChainOfGt(); }
    else if c == '"' { ChainOfQuot(); }
    else if c == '\'' { ChainOfApos(); }
    else { ChainOfPlain(c); }
  }

  lemma ChainConcat(a: string, b: string)
    ensures EscapeChain(a + b) == EscapeChain(a) + EscapeChain(b)
  {
    var a1, b1 := ReplaceAll(a, '&', Amp), ReplaceAll(b, '&', Amp);
    ReplaceAllConcat(a, b, '&', Amp);
    var a2, b2 := ReplaceAll(a1, '<', Lt), ReplaceAll(b1, '<', Lt);
    ReplaceAllConcat(a1, b1, '<', Lt);
    var a3, b3 := ReplaceAll(a2, '>', Gt), ReplaceAll(b2, '>', Gt);
    ReplaceAllConcat(a2, b2, '>', Gt);
    var a4, b4 := ReplaceAll(a3, '"', Quot), ReplaceAll(b3, '"', Quot);
    ReplaceAllConcat(a3, b3, '"', Quot);
    ReplaceAllConcat(a4, b4, '\'', Apos);
  }

  /** The five replacements in the source's order act character by
      character: they are the reference escaping. */
  lemma {:induction false} ChainIsCharwise(s: string)
    ensures EscapeChain(s) == EscapeText(s)
  {
    if s == [] {
    } else {
      assert s == [s[0]] + s[1..];
      ChainConcat([s[0]], s[1..]);
      ChainOfChar(s[0]);
      ChainIsCharwise(s[1..]);
    }
  }

  /** For a truthy argument `escapeString` is the reference escaping. */
  lemma EscapeStringIsCharwise(str: Option<string>)
    ensures EscapeString(str) == EscapeText(TextOf(str))
  {
    if Truthy(str) {
      ChainIsCharwise(str.value);
    }
  }

  /** Replacing `&` last instead of first would escape the entities made by
      the earlier replacements a second time: `<` would become `&amp;lt;`. */
  lemma AmpFirstAvoidsDoubleEscape()
    ensures ReplaceAll(ReplaceAll("<", '<', Lt), '&', Amp) == "&amp;lt;"
    ensures EscapeString(Some("<")) == "&lt;"
  {
    ReplaceAllSingle('<', '<', Lt);
    ReplaceAllSingle('&', '&', Amp);
    assert Lt == ['&'] + "lt;";
    ReplaceAllAbsent("lt;", '&', Amp);
    ReplaceAllConcat(['&'], "lt;", '&', Amp);
    ChainOfChar('<');
  }

  // ---------------------------------------------------------------------
  // Properties of the reference escaping, and through it of escapeString.

  /** Escaping distributes over concatenation. */
  lemma {:induction false} EscapeTextConcat(a: string, b: string)
    ensures EscapeText(a + b) == EscapeText(a) + EscapeText(b)
  {
    if a == [] {
      assert a + b == b;
    } else {
      assert (a + b)[0] == a[0];
      assert (a + b)[1..] == a[1..] + b;
      EscapeTextConcat(a[1..], b);
    }
  }

  /** escapeString(a + b) == escapeString(a) + escapeString(b) for texts. */
  lemma EscapeStringConcat(a: string, b: string)
    ensures EscapeString(Some(a + b)) == EscapeString(Some(a)) + EscapeString(Some(b))
  {
    EscapeStringIsCharwise(Some(a + b));
    EscapeStringIsCharwise(Some(a));
    EscapeStringIsCharwise(Some(b));
    EscapeTextConcat(a, b);
  }

  /** No `<`, `>`, `"` or `'` survives escaping. */
  lemma {:induction false} EscapeTextNoMarkup(s: string)
    ensures forall i :: 0 <= i < |EscapeText(s)| ==> !IsSpecial(EscapeText(s)[i]) || EscapeText(s)[i] == '&'
  {
    if s != [] {
      EscapeTextNoMarkup(s[1..]);
      var head := EscapeChar(s[0]);
      assert forall i :: 0 <= i < |head| ==> !IsSpecial(head[i]) || head[i] == '&';
    }
  }

  lemma EscapeStringNoMarkup(str: Option<string>)
    ensures forall i :: 0 <= i < |EscapeString(str)| ==>
      EscapeString(str)[i] !in {'<', '>', '"', '\''}
  {
    EscapeStringIsCharwise(str);
    EscapeTextNoMarkup(TextOf(str));
  }

  lemma AmpsConcat(a: string, b: string)
    requires AmpsBeginEntities(a) && AmpsBeginEntities(b)
    ensures AmpsBeginEntities(a + b)
  {
    forall i | 0 <= i < |a + b| && (a + b)[i] == '&'
      ensures BeginsEntity((a + b)[i..])
    {
      if i < |a| {
        assert a[i..] + b == (a + b)[i..];
        assert BeginsEntity(a[i..]);
      } else {
        assert (a + b)[i..] == b[i - |a|..];
      }
    }
  }

  lemma {:induction false} EscapeTextAmps(s: string)
    ensures AmpsBeginEntities(EscapeText(s))
  {
    if s != [] {
      var head := EscapeChar(s[0]);
      assert AmpsBeginEntities(head) by {
        forall i | 0 <= i < |head| && head[i] == '&'
          ensures BeginsEntity(head[i..])
        {
          assert i == 0 && head[0..] == head;
        }
      }
      EscapeTextAmps(s[1..]);
      AmpsConcat(head, EscapeText(s[1..]));
    }
  }

  /** Every `&` in the output of escapeString begins one of the five
      entities: an `&` of the input became `&amp;` before the other entities
      were written, so none of theirs was escaped again. */
  lemma EscapeStringAmps(str: Option<string>)
    ensures AmpsBeginEntities(EscapeString(str))
  {
    EscapeStringIsCharwise(str);
    EscapeTextAmps(TextOf(str));
  }

  // Unescape recognises the entity at the front of `entity + t` and only it.

  lemma UnescapeAmp(t: string)
    ensures Unescape(Amp + t) == ['&'] + Unescape(t)
  {
    var u := Amp + t;
    assert u[..5] == Amp && u[5..] == t;
  }

  lemma UnescapeLt(t: string)
    ensures Unescape(Lt + t) == ['<'] + Unescape(t)
  {
    var u := Lt + t;
    assert u[1] == 'l';
    assert |u| < 5 || u[..5][1] != Amp[1];
    assert u[..4] == Lt && u[4..] == t;
  }

  lemma UnescapeGt(t: string)
    ensures Unescape(Gt + t) == ['>'] + Unescape(t)
  {
    var u := Gt + t;
    assert u[1] == 'g';
    assert |u| < 5 || u[..5][1] != Amp[1];
    assert u[..4][1] != Lt[1];
    assert u[..4] == Gt && u[4..] == t;
  }

  lemma UnescapeQuot(t: string)
    ensures Unescape(Quot + t) == ['"'] + Unescape(t)
  {
    var u := Quot + t;
    assert u[1] == 'q';
    assert u[..5][1] != Amp[1];
    assert u[..4][1] != Lt[1] && u[..4][1] != Gt[1];
    assert u[..6] == Quot && u[6..] == t;
  }

  lemma UnescapeApos(t: string)
    ensures Unescape(Apos + t) == ['\''] + Unescape(t)
  {
    var u := Apos + t;
    assert u[1] == '#';
    assert u[..5][1] != Amp[1];
    assert u[..4][1] != Lt[1] && u[..4][1] != Gt[1];
    assert |u| < 6 || u[..6][1] != Quot[1];
    assert u[..5] == Apos && u[5..] == t;
  }

  lemma UnescapePlain(c: char, t: string)
    requires !IsSpecial(c)
    ensures Unescape([c] + t) == [c] + Unescape(t)
  {
    var u := [c] + t;
    assert u[0] == c;
    assert |u| < 5 || u[..5][0] != Amp[0];
    assert |u| < 4 || (u[..4][0] != Lt[0] && u[..4][0] != Gt[0]);
    assert |u| < 6 || u[..6][0] != Quot[0];
    assert |u| < 5 || u[..5][0] != Apos[0];
    assert u[1..] == t;
  }

  lemma UnescapeCons(c: char, t: string)
    ensures Unescape(EscapeChar(c) + t) == [c] + Unescape(t)
  {
    if c == '&' { UnescapeAmp(t); }
    else if c == '<' { UnescapeLt(t); }
    else if c == '>' { UnescapeGt(t); }
    else if c == '"' { UnescapeQuot(t); }
    else if c == '\'' { UnescapeApos(t); }
    else { UnescapePlain(c, t); }
  }

  lemma {:induction false} UnescapeEscapeText(s: string)
    ensures Unescape(EscapeText(s)) == s
  {
    if s != [] {
      UnescapeCons(s[0], EscapeText(s[1..]));
      UnescapeEscapeText(s[1..]);
      assert [s[0]] + s[1..] == s;
    }
  }

  /** Round trip: decoding the five entities gives the argument back (the
      empty string for a falsy argument). */
  lemma EscapeStringRoundTrip(str: Option<string>)
    ensures Unescape(EscapeString(str)) == TextOf(str)
  {
    EscapeStringIsCharwise(str);
    UnescapeEscapeText(TextOf(str));
  }

  /** The escaped text is never shorter, and it is strictly longer exactly
      when the text holds one of the five characters. */
  lemma {:induction false} EscapeTextLength(s: string)
    ensures |EscapeText(s)| >= |s|
    ensures |EscapeText(s)| == |s| <==> forall i :: 0 <= i < |s| ==> !IsSpecial(s[i])
  {
    if s != [] {
      EscapeTextLength(s[1..]);
      assert forall i :: 1 <= i < |s| ==> s[i] == s[1..][i - 1];
    }
  }

  /** A text without the five characters is left unchanged. */
  lemma {:induction false} EscapeTextPlain(s: string)
    requires forall i :: 0 <= i < |s| ==> !IsSpecial(s[i])
    ensures EscapeText(s) == s
  {
    if s != [] {
      EscapeTextPlain(s[1..]);
    }
  }

  /** escapeString leaves its argument unchanged exactly when the argument
      holds none of the five characters; it never shortens it. */
  lemma EscapeStringPlain(s: string)
    ensures |EscapeString(Some(s))| >= |s|
    ensures EscapeString(Some(s)) == s <==> forall i :: 0 <= i < |s| ==> !IsSpecial(s[i])
  {
    EscapeStringIsCharwise(Some(s));
    EscapeTextLength(s);
    if forall i :: 0 <= i < |s| ==> !IsSpecial(s[i]) {
      EscapeTextPlain(s);
    }
  }
}
