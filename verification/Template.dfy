/** The preview of a message template: one split/join per variable, against a single pass over the text. */
module Template {
  import opened Domain

  predicate StartsWith(s: string, t: string) {
    |t| <= |s| && s[..|t|] == t
  }

  /** JavaScript's split by a non-empty separator. */
  function Split(s: string, sep: string, piece: string): (r: seq<string>)
    requires sep != ""
    ensures |r| > 0
    decreases |s|
  {
    if s == "" then [piece]
    else if StartsWith(s, sep) then [piece] + Split(s[|sep|..], sep, "")
    else Split(s[1..], sep, piece + [s[0]])
  }

  function Join(pieces: seq<string>, glue: string): string
    requires |pieces| > 0
  {
    if |pieces| == 1 then pieces[0] else pieces[0] + glue + Join(pieces[1..], glue)
  }

  /** One variable and its sample value. */
  datatype Var = Var(token: string, value: string)

  /** The reduce over the variables, in their order. */
  function Preview(vars: seq<Var>, text: string): string
    requires forall i :: 0 <= i < |vars| ==> vars[i].token != ""
    decreases |vars|
  {
    if vars == [] then text else Preview(vars[1..], Join(Split(text, vars[0].token, ""), vars[0].value))
  }

  // ----- the reference: one pass, all variables at once -----

  /** The first variable whose token the text starts with, if any. */
  function Match(vars: seq<Var>, text: string): (r: Option<Var>)
    ensures r.Some? ==> r.value in vars && StartsWith(text, r.value.token)
    ensures r.None? ==> forall x :: x in vars ==> !StartsWith(text, x.token)
  {
    if vars == [] then None
    else if StartsWith(text, vars[0].token) then Some(vars[0])
    else Match(vars[1..], text)
  }

  function Single(vars: seq<Var>, text: string): string
    requires forall i :: 0 <= i < |vars| ==> vars[i].token != ""
    decreases |text|
  {
    if text == "" then ""
    else
      var m := Match(vars, text);
      if m.Some? then m.value.value + Single(vars, text[|m.value.token|..])
      else [text[0]] + Single(vars, text[1..])
  }

  // ----- what makes them agree -----

  predicate BraceFree(s: string) { '{' !in s && '}' !in s }

  predicate IsToken(t: string) {
    |t| >= 2 && t[0] == '{' && t[|t| - 1] == '}' && BraceFree(t[1..|t| - 1])
  }

  predicate Occurs(v: string, s: string) {
    StartsWith(s, v) || (s != "" && Occurs(v, s[1..]))
  }

  /** Tokens in braces; values without braces that are part of no token; no token twice. */
  ghost predicate WellFormed(vars: seq<Var>) {
    && (forall i :: 0 <= i < |vars| ==> IsToken(vars[i].token) && BraceFree(vars[i].value))
    && (forall i, j :: 0 <= i < |vars| && 0 <= j < |vars| ==> !Occurs(vars[i].value, vars[j].token))
    && (forall i, j :: 0 <= i < j < |vars| ==> vars[i].token != vars[j].token)
  }

  /** Two tokens at the same place are the same token. */
  lemma OneTokenHere(s: string, a: string, b: string)
    requires IsToken(a) && IsToken(b) && StartsWith(s, a) && StartsWith(s, b)
    ensures a == b
  {
    ClosesLast(s, a);
    ClosesLast(s, b);
    assert |a| == |b|;
  }

  lemma ClosesLast(s: string, t: string)
    requires IsToken(t) && StartsWith(s, t)
    ensures s[|t| - 1] == '}' && forall k :: 0 <= k < |t| - 1 ==> s[k] != '}'
  {
    assert forall k :: 0 <= k < |t| ==> s[k] == t[k];
    assert forall k :: 1 <= k < |t| - 1 ==> t[1..|t| - 1][k - 1] == t[k];
  }

  /** What follows a token's opening brace has no opening brace. */
  lemma TailOpensNothing(t: string)
    requires IsToken(t)
    ensures '{' !in t[1..] && t[1..] != "" && t[|t| - 1] == '}' && BraceFree(t[1..|t| - 1])
    ensures t == ['{'] + t[1..]
  {
    assert t[1..] == t[1..|t| - 1] + ['}'];
  }

  lemma MatchIs(vars: seq<Var>, text: string, x: Var)
    requires WellFormed(vars) && x in vars && StartsWith(text, x.token)
    ensures Match(vars, text) == Some(x)
  {
    var i :| 0 <= i < |vars| && vars[i] == x;
    var m := Match(vars, text).value;
    var j :| 0 <= j < |vars| && vars[j] == m;
    OneTokenHere(text, x.token, m.token);
    assert i == j;
  }

  lemma MatchIsNone(vars: seq<Var>, text: string)
    requires forall x :: x in vars ==> !StartsWith(text, x.token)
    ensures Match(vars, text) == None
  {
  }

  lemma NoTokenWithoutBrace(vars: seq<Var>, text: string)
    requires WellFormed(vars) && text != "" && text[0] != '{'
    ensures Match(vars, text) == None
  {
    forall x | x in vars
      ensures !StartsWith(text, x.token)
    {
      var i :| 0 <= i < |vars| && vars[i] == x;
      assert x.token[0] == '{';
    }
  }

  /** A pass walks over text that opens no brace. */
  lemma {:induction false} SingleOverPlain(vars: seq<Var>, v: string, rest: string)
    requires WellFormed(vars) && '{' !in v
    ensures Single(vars, v + rest) == v + Single(vars, rest)
    decreases |v|
  {
    if v == "" {
      assert v + rest == rest;
    } else {
      assert v[0] in v;
      NoTokenWithoutBrace(vars, v + rest);
      assert (v + rest)[1..] == v[1..] + rest;
      SingleOverPlain(vars, v[1..], rest);
      assert v + Single(vars, rest) == [v[0]] + (v[1..] + Single(vars, rest));
    }
  }

  function Only(x: Var): seq<Var> { [x] }

  lemma OnlyMatches(x: Var, text: string)
    ensures Match(Only(x), text) == if StartsWith(text, x.token) then Some(x) else None
  {
    assert Only(x)[1..] == [];
  }

  /** Split and join is a pass with one variable. */
  lemma {:induction false} SplitJoinIsSingle(x: Var, text: string, piece: string)
    requires x.token != ""
    ensures Join(Split(text, x.token, piece), x.value) == piece + Single(Only(x), text)
    decreases |text|
  {
    OnlyMatches(x, text);
    if text == "" {
      assert piece + "" == piece;
    } else if StartsWith(text, x.token) {
      SplitJoinIsSingle(x, text[|x.token|..], "");
      var rest := Split(text[|x.token|..], x.token, "");
      assert ([piece] + rest)[1..] == rest;
      assert "" + Single(Only(x), text[|x.token|..]) == Single(Only(x), text[|x.token|..]);
      assert piece + x.value + Single(Only(x), text[|x.token|..]) == piece + (x.value + Single(Only(x), text[|x.token|..]));
    } else {
      SplitJoinIsSingle(x, text[1..], piece + [text[0]]);
      assert piece + [text[0]] + Single(Only(x), text[1..]) == piece + ([text[0]] + Single(Only(x), text[1..]));
    }
  }

  /** A value that is no part of w, and closes no brace, does not begin a text that starts with w. */
  lemma ValueBeginsNothing(v: string, w: string, rest: string)
    requires BraceFree(v) && !Occurs(v, w) && w != "" && w[|w| - 1] == '}'
    ensures !StartsWith(v + rest, w)
  {
    if |w| <= |v| {
      assert v[|w| - 1] in v;
      assert (v + rest)[..|w|][|w| - 1] == v[|w| - 1];
    } else if |w| <= |v + rest| {
      assert w[..|v|] != v;
      assert (v + rest)[..|w|][..|v|] == v;
    }
  }

  lemma ValueIsBraceFree(vars: seq<Var>, x: Var)
    requires WellFormed(vars) && x in vars
    ensures BraceFree(x.value)
  {
    var i :| 0 <= i < |vars| && vars[i] == x;
  }

  /** The end of a token: what is left of it after some of its characters, the brace that opens it included. */
  predicate IsTokenEnd(w: string) {
    w != "" && w[|w| - 1] == '}' && BraceFree(w[..|w| - 1])
  }

  ghost predicate Apart(vars: seq<Var>, w: string) {
    forall x :: x in vars ==> !Occurs(x.value, w)
  }

  lemma ShorterEnd(vars: seq<Var>, w: string)
    requires IsTokenEnd(w) && |w| > 1 && Apart(vars, w)
    ensures IsTokenEnd(w[1..]) && Apart(vars, w[1..])
  {
    assert w[1..][..|w[1..]| - 1] == w[..|w| - 1][1..];
    forall x | x in vars
      ensures !Occurs(x.value, w[1..])
    {
      assert !Occurs(x.value, w);
    }
  }

  lemma SingleSteps(vars: seq<Var>, text: string)
    requires WellFormed(vars) && text != "" && Match(vars, text) == None
    ensures Single(vars, text) == [text[0]] + Single(vars, text[1..])
  {
  }

  /** The end of a token that stands somewhere after a pass stood there before it. */
  lemma {:induction false} NotComposed(vars: seq<Var>, w: string, text: string)
    requires WellFormed(vars) && Apart(vars, w) && IsTokenEnd(w)
    requires StartsWith(Single(vars, text), w)
    ensures StartsWith(text, w)
    decreases |w|
  {
    var m := Match(vars, text);
    if text != "" && m.Some? {
      ValueIsBraceFree(vars, m.value);
      ValueBeginsNothing(m.value.value, w, Single(vars, text[|m.value.token|..]));
    } else if text != "" {
      SingleSteps(vars, text);
      Unshift(text[0], Single(vars, text[1..]), w);
      if |w| > 1 {
        ShorterEnd(vars, w);
        NotComposed(vars, w[1..], text[1..]);
      }
      Unshift(text[0], text[1..], w);
      assert text == [text[0]] + text[1..];
    }
  }

  lemma Unshift(c: char, s: string, w: string)
    requires w != ""
    ensures StartsWith([c] + s, w) <==> c == w[0] && StartsWith(s, w[1..])
  {
    if |w| <= |s| + 1 {
      assert ([c] + s)[..|w|] == [c] + s[..|w| - 1];
      assert w == [w[0]] + w[1..];
    }
  }

  /** A whole token after one unmatched character of a pass stood there before. */
  lemma TokenWasThere(vars: seq<Var>, t: string, text: string)
    requires WellFormed(vars) && IsToken(t) && Apart(vars, t) && text != ""
    ensures StartsWith([text[0]] + Single(vars, text[1..]), t) ==> StartsWith(text, t)
  {
    TailOpensNothing(t);
    assert t[1..][..|t[1..]| - 1] == t[1..|t| - 1];
    forall x | x in vars
      ensures !Occurs(x.value, t[1..])
    {
      assert !Occurs(x.value, t);
    }
    Unshift(text[0], Single(vars, text[1..]), t);
    if StartsWith([text[0]] + Single(vars, text[1..]), t) {
      NotComposed(vars, t[1..], text[1..]);
      Unshift(text[0], text[1..], t);
      assert text == [text[0]] + text[1..];
    }
  }

  lemma Parts(x: Var, vars: seq<Var>)
    requires WellFormed([x] + vars)
    ensures WellFormed(Only(x)) && WellFormed(vars)
    ensures forall y :: y in vars ==> y in [x] + vars && !Occurs(x.value, y.token) && y.token != x.token && IsToken(y.token)
    ensures IsToken(x.token) && BraceFree(x.value)
  {
    var all := [x] + vars;
    assert all[0] == x && forall i :: 0 <= i < |vars| ==> all[i + 1] == vars[i];
  }

  /** Replacing one variable first and the others in one pass afterwards is one pass with all of them. */
  lemma {:induction false} OneAhead(x: Var, vars: seq<Var>, text: string)
    requires WellFormed([x] + vars)
    ensures WellFormed(Only(x)) && WellFormed(vars)
    ensures Single([x] + vars, text) == Single(vars, Single(Only(x), text))
    decreases |text|
  {
    Parts(x, vars);
    OnlyMatches(x, text);
    var all := [x] + vars;
    if text != "" {
      if StartsWith(text, x.token) {
        MatchIs(all, text, x);
        var rest := text[|x.token|..];
        OneAhead(x, vars, rest);
        SingleOverPlain(vars, x.value, Single(Only(x), rest));
      } else {
        var m := Match(vars, text);
        if m.Some? {
          OneAheadAtToken(x, vars, text, m.value);
        } else {
          MatchIsNone(all, text);
          OneAhead(x, vars, text[1..]);
          var out := [text[0]] + Single(Only(x), text[1..]);
          forall y | y in vars
            ensures !StartsWith(out, y.token)
          {
            assert forall z :: z in Only(x) ==> z == x;
            TokenWasThere(Only(x), y.token, text);
          }
          MatchIsNone(vars, out);
          assert out[1..] == Single(Only(x), text[1..]);
        }
      }
    }
  }

  /** Another variable's replacement passes over a token unchanged. */
  lemma PassesOverToken(x: Var, t: string, rest: string)
    requires WellFormed(Only(x)) && IsToken(t) && !StartsWith(t + rest, x.token)
    ensures Single(Only(x), t + rest) == t + Single(Only(x), rest)
  {
    OnlyMatches(x, t + rest);
    TailOpensNothing(t);
    assert (t + rest)[1..] == t[1..] + rest;
    SingleOverPlain(Only(x), t[1..], rest);
    assert ['{'] + (t[1..] + Single(Only(x), rest)) == (['{'] + t[1..]) + Single(Only(x), rest);
  }

  lemma SingleAtToken(vars: seq<Var>, y: Var, rest: string)
    requires WellFormed(vars) && y in vars && IsToken(y.token)
    ensures Single(vars, y.token + rest) == y.value + Single(vars, rest)
  {
    MatchIs(vars, y.token + rest, y);
    assert (y.token + rest)[|y.token|..] == rest;
  }

  lemma {:induction false} OneAheadAtToken(x: Var, vars: seq<Var>, text: string, y: Var)
    requires WellFormed([x] + vars) && y in vars && StartsWith(text, y.token) && !StartsWith(text, x.token)
    ensures WellFormed(Only(x)) && WellFormed(vars)
    ensures Single([x] + vars, text) == Single(vars, Single(Only(x), text))
    decreases |text|, 0
  {
    Parts(x, vars);
    var rest := text[|y.token|..];
    assert text == y.token + rest;
    OneAhead(x, vars, rest);
    SingleAtToken([x] + vars, y, rest);
    PassesOverToken(x, y.token, rest);
    SingleAtToken(vars, y, Single(Only(x), rest));
  }

  /** For every text and every well-formed table: the sequential split/join substitution is the single pass. */
  lemma {:induction false} PreviewIsSinglePass(vars: seq<Var>, text: string)
    requires WellFormed(vars)
    ensures forall i :: 0 <= i < |vars| ==> vars[i].token != ""
    ensures Preview(vars, text) == Single(vars, text)
    decreases |vars|
  {
    if vars == [] {
      NothingToDo(text);
    } else {
      assert vars == [vars[0]] + vars[1..];
      OneAhead(vars[0], vars[1..], text);
      SplitJoinIsSingle(vars[0], text, "");
      assert "" + Single(Only(vars[0]), text) == Single(Only(vars[0]), text);
      PreviewIsSinglePass(vars[1..], Single(Only(vars[0]), text));
    }
  }

  lemma {:induction false} NothingToDo(text: string)
    ensures Single([], text) == text
    decreases |text|
  {
    if text != "" {
      NothingToDo(text[1..]);
      assert text == [text[0]] + text[1..];
    }
  }

  /** The order of the variables does not matter. */
  lemma {:induction false} SamePass(vars: seq<Var>, vars': seq<Var>, text: string)
    requires WellFormed(vars) && WellFormed(vars') && forall x :: x in vars <==> x in vars'
    ensures Single(vars, text) == Single(vars', text)
    decreases |text|
  {
    if text != "" {
      var m := Match(vars, text);
      if m.Some? {
        MatchIs(vars', text, m.value);
        SamePass(vars, vars', text[|m.value.token|..]);
      } else {
        MatchIsNone(vars', text);
        SamePass(vars, vars', text[1..]);
      }
    }
  }

  lemma AnyOrder(vars: seq<Var>, vars': seq<Var>, text: string)
    requires WellFormed(vars) && WellFormed(vars') && forall x :: x in vars <==> x in vars'
    ensures Preview(vars, text) == Preview(vars', text)
  {
    PreviewIsSinglePass(vars, text);
    PreviewIsSinglePass(vars', text);
    SamePass(vars, vars', text);
  }

  /** Text that opens no brace hides no token. */
  lemma {:induction false} OccursAfterPlain(t: string, v: string, rest: string)
    requires IsToken(t) && '{' !in v && !Occurs(t, rest)
    ensures !Occurs(t, v + rest)
    decreases |v|
  {
    if v == "" {
      assert v + rest == rest;
    } else {
      assert v[0] in v;
      assert v + rest == [v[0]] + (v[1..] + rest);
      Unshift(v[0], v[1..] + rest, t);
      OccursAfterPlain(t, v[1..], rest);
      assert (v + rest)[1..] == v[1..] + rest;
    }
  }

  /** No placeholder is left in a preview. */
  lemma {:induction false} NoneLeft(vars: seq<Var>, x: Var, text: string)
    requires WellFormed(vars) && x in vars
    ensures !Occurs(x.token, Single(vars, text))
    decreases |text|
  {
    if text != "" {
      var m := Match(vars, text);
      if m.Some? {
        NoneLeft(vars, x, text[|m.value.token|..]);
        OccursAfterPlain(x.token, m.value.value, Single(vars, text[|m.value.token|..]));
      } else {
        NoneLeft(vars, x, text[1..]);
        TokenWasThere(vars, x.token, text);
        assert ([text[0]] + Single(vars, text[1..]))[1..] == Single(vars, text[1..]);
      }
    }
  }

  lemma PreviewLeavesNoPlaceholder(vars: seq<Var>, x: Var, text: string)
    requires WellFormed(vars) && x in vars
    ensures forall i :: 0 <= i < |vars| ==> vars[i].token != ""
    ensures !Occurs(x.token, Preview(vars, text))
  {
    PreviewIsSinglePass(vars, text);
    NoneLeft(vars, x, text);
  }

  // ----- the table that is shipped -----

  const OWNER := Var("{владелец}", "Ержан")
  const CLIENT := Var("{клиент}", "Береке Супермаркет")
  const CODE := Var("{код}", "K7QF-3M2D")
  const DUE := Var("{срок}", "21.08.2026")

  const VARS: seq<Var> := [OWNER, CLIENT, CODE, DUE]

  lemma {:induction false} ForeignChar(v: string, t: string, c: char)
    requires c in v && c !in t
    ensures !Occurs(v, t)
    decreases |t|
  {
    var k :| 0 <= k < |v| && v[k] == c;
    assert |v| <= |t| ==> t[..|v|][k] == t[k];
    if t != "" {
      ForeignChar(v, t[1..], c);
    }
  }

  lemma OwnerToken()
    ensures IsToken(OWNER.token) && |OWNER.token| == 10 && BraceFree(OWNER.value)
  {
    assert OWNER.token[1..9] == "владелец";
  }

  lemma ClientToken()
    ensures IsToken(CLIENT.token) && |CLIENT.token| == 8 && BraceFree(CLIENT.value)
  {
    assert CLIENT.token[1..7] == "клиент";
    var a, b, c := "Береке", " Супер", "маркет";
    assert CLIENT.value == a + b + c;
    assert BraceFree(a) && BraceFree(b) && BraceFree(c);
  }

  lemma CodeToken()
    ensures IsToken(CODE.token) && |CODE.token| == 5 && BraceFree(CODE.value)
  {
    assert CODE.token[1..4] == "код";
  }

  lemma DueToken()
    ensures IsToken(DUE.token) && |DUE.token| == 6 && BraceFree(DUE.value)
  {
    assert DUE.token[1..5] == "срок";
  }

  /** Without any of four characters, each of which begins one of the sample values. */
  predicate Foreign(t: string) {
    'Е' !in t && 'Б' !in t && 'K' !in t && '2' !in t
  }

  lemma OwnerForeign()
    ensures Foreign(OWNER.token)
  {
  }

  lemma ClientForeign()
    ensures Foreign(CLIENT.token)
  {
  }

  lemma CodeForeign()
    ensures Foreign(CODE.token)
  {
  }

  lemma DueForeign()
    ensures Foreign(DUE.token)
  {
  }

  lemma ShippedApart(x: Var, t: string)
    requires x in VARS
    requires Foreign(t)
    ensures !Occurs(x.value, t)
  {
    assert OWNER.value[0] == 'Е' && CLIENT.value[0] == 'Б' && CODE.value[0] == 'K' && DUE.value[0] == '2';
    if x == OWNER {
      ForeignChar(x.value, t, 'Е');
    } else if x == CLIENT {
      ForeignChar(x.value, t, 'Б');
    } else if x == CODE {
      ForeignChar(x.value, t, 'K');
    } else {
      ForeignChar(x.value, t, '2');
    }
  }

  lemma TokensDiffer()
    ensures forall i, j :: 0 <= i < j < |VARS| ==> VARS[i].token != VARS[j].token
  {
    assert |VARS[0].token| == 10 && |VARS[1].token| == 8 && |VARS[2].token| == 5 && |VARS[3].token| == 6;
  }

  /** The shipped variables and sample values meet the condition. */
  lemma ShippedTableIsWellFormed()
    ensures WellFormed(VARS)
  {
    OwnerToken();
    ClientToken();
    CodeToken();
    DueToken();
    OwnerForeign();
    ClientForeign();
    CodeForeign();
    DueForeign();
    forall i, j | 0 <= i < |VARS| && 0 <= j < |VARS|
      ensures !Occurs(VARS[i].value, VARS[j].token)
    {
      ShippedApart(VARS[i], VARS[j].token);
    }
    TokensDiffer();
  }
}
