/**
 The single-pass template engine of `crates/lc-chains/src/base.rs`. Substitution factors
 into a parse that looks at the template alone and a rendering that looks at the bindings.
 */
module Templates {
  import opened Common

  type Bindings = map<string, string>

  /** The Unicode tables the name test consults. No brace is a letter or a digit. */
  datatype Classes = Classes(isAlphabetic: char -> bool, isAlphanumeric: char -> bool)
  {
    ghost predicate Sane() {
      !isAlphabetic('{') && !isAlphabetic('}') && !isAlphanumeric('{') && !isAlphanumeric('}')
    }

    predicate ValidName(name: string) {
      && name != ""
      && (isAlphabetic(name[0]) || name[0] == '_')
      && forall i :: 0 < i < |name| ==> isAlphanumeric(name[i]) || name[i] == '_'
    }
  }

  datatype Piece = Lit(c: char) | Var(name: string)

  // ---------- Parse and render ----------

  /** The first closing brace at or after `i`, or the end. */
  function FindClose(t: string, i: nat): (j: nat)
    requires i <= |t|
    ensures i <= j <= |t| && (j < |t| ==> t[j] == '}')
    ensures forall k :: i <= k < j ==> t[k] != '}'
    decreases |t| - i
  {
    if i < |t| && t[i] != '}' then FindClose(t, i + 1) else i
  }

  /** The first piece of a non-empty template and the number of characters it takes. */
  function First(cl: Classes, t: string): (r: (Piece, nat))
    requires t != ""
    ensures 1 <= r.1 <= |t|
  {
    if t[0] == '{' then
      if |t| > 1 && t[1] == '{' then (Lit('{'), 2)
      else
        var j := FindClose(t, 1);
        if j < |t| && cl.ValidName(t[1..j]) then (Var(t[1..j]), j + 1) else (Lit('{'), 1)
    else if t[0] == '}' then (Lit('}'), if |t| > 1 && t[1] == '}' then 2 else 1)
    else (Lit(t[0]), 1)
  }

  function Parse(cl: Classes, t: string): seq<Piece>
    decreases |t|
  {
    if t == "" then []
    else
      var (piece, n) := First(cl, t);
      [piece] + Parse(cl, t[n..])
  }

  /** An unbound placeholder stays as literal text. */
  function RenderPiece(p: Piece, vars: Bindings): string {
    match p
    case Lit(c) => [c]
    case Var(name) => if name in vars then vars[name] else "{" + name + "}"
  }

  function Render(pieces: seq<Piece>, vars: Bindings): string {
    if pieces == [] then "" else RenderPiece(pieces[0], vars) + Render(pieces[1..], vars)
  }

  function Note(missing: seq<string>, p: Piece, vars: Bindings): seq<string> {
    if p.Var? && p.name !in vars && p.name !in missing then missing + [p.name] else missing
  }

  function Missing(pieces: seq<Piece>, vars: Bindings, noted: seq<string>): seq<string> {
    if pieces == [] then noted else Missing(pieces[1..], vars, Note(noted, pieces[0], vars))
  }

  /** The pass itself, piece by piece, with what it has written and noted so far. */
  function Scan(cl: Classes, t: string, vars: Bindings, out: string, noted: seq<string>): (string, seq<string>)
    decreases |t|
  {
    if t == "" then (out, noted)
    else
      var (piece, n) := First(cl, t);
      Scan(cl, t[n..], vars, out + RenderPiece(piece, vars), Note(noted, piece, vars))
  }

  /** The same pass on indices, as the scanner runs it. */
  function FirstAt(cl: Classes, t: string, i: nat): (r: (Piece, nat))
    requires i < |t|
    ensures i < r.1 <= |t|
  {
    if t[i] == '{' then
      if i + 1 < |t| && t[i + 1] == '{' then (Lit('{'), i + 2)
      else
        var j := FindClose(t, i + 1);
        if j < |t| && cl.ValidName(t[i + 1..j]) then (Var(t[i + 1..j]), j + 1) else (Lit('{'), i + 1)
    else if t[i] == '}' then (Lit('}'), if i + 1 < |t| && t[i + 1] == '}' then i + 2 else i + 1)
    else (Lit(t[i]), i + 1)
  }

  function ScanAt(cl: Classes, t: string, i: nat, vars: Bindings, out: string, noted: seq<string>)
    : (string, seq<string>)
    requires i <= |t|
    decreases |t| - i
  {
    if i == |t| then (out, noted)
    else
      var (piece, next) := FirstAt(cl, t, i);
      ScanAt(cl, t, next, vars, out + RenderPiece(piece, vars), Note(noted, piece, vars))
  }

  /** The scanner: one pass over the template, equal to rendering its parse. */
  method SubstituteTemplate(cl: Classes, template: string, vars: Bindings) returns (out: string, missing: seq<string>)
    ensures out == Render(Parse(cl, template), vars)
    ensures missing == Missing(Parse(cl, template), vars, [])
    ensures cl.Sane() ==> Substitutes(cl, template, vars, out)
    ensures Distinct(missing)
    ensures forall name :: name in missing <==> Var(name) in Parse(cl, template) && name !in vars
  {
    if cl.Sane() {
      SubstitutionRules(cl, template, vars);
    }
    MissingIsExact(Parse(cl, template), vars);
    out, missing := "", [];
    var n := |template|;
    var i := 0;
    while i < n
      invariant 0 <= i <= n
      invariant ScanAt(cl, template, i, vars, out, missing) == ScanAt(cl, template, 0, vars, "", [])
      decreases n - i
    {
      out, missing, i := SubstituteOne(cl, template, i, vars, out, missing);
    }
    ScanFromStart(cl, template, vars);
  }

  /** The body of the scanner's loop: one piece is read at `i` and written out. */
  method SubstituteOne(cl: Classes, template: string, i: nat, vars: Bindings, out: string, missing: seq<string>)
    returns (out': string, missing': seq<string>, next: nat)
    requires i < |template|
    ensures var (piece, end) := FirstAt(cl, template, i);
            out' == out + RenderPiece(piece, vars) && missing' == Note(missing, piece, vars) && next == end
  {
    var n, c := |template|, template[i];
    out', missing' := out, missing;
    if c == '{' {
      if i + 1 < n && template[i + 1] == '{' {
        return out + ['{'], missing, i + 2;
      }
      var j := i + 1;
      while j < n && template[j] != '}'
        invariant i + 1 <= j <= n
        invariant FindClose(template, j) == FindClose(template, i + 1)
      {
        j := j + 1;
      }
      if j < n {
        var name := template[i + 1..j];
        if cl.ValidName(name) {
          if name in vars {
            out' := out + vars[name];
          } else {
            if name !in missing {
              missing' := missing + [name];
            }
            out' := out + ("{" + name + "}");
          }
          return out', missing', j + 1;
        }
      }
      return out + ['{'], missing, i + 1;
    }
    if c == '}' {
      if i + 1 < n && template[i + 1] == '}' {
        return out + ['}'], missing, i + 2;
      }
      return out + ['}'], missing, i + 1;
    }
    return out + [c], missing, i + 1;
  }

  lemma ScanFromStart(cl: Classes, t: string, vars: Bindings)
    ensures ScanAt(cl, t, 0, vars, "", []) == (Render(Parse(cl, t), vars), Missing(Parse(cl, t), vars, []))
  {
    ScanAtIsScan(cl, t, 0, vars, "", []);
    assert t[0..] == t;
    ScanIsRenderOfParse(cl, t, vars, "", []);
    assert "" + Render(Parse(cl, t), vars) == Render(Parse(cl, t), vars);
  }

  lemma {:induction false} ScanAtIsScan(cl: Classes, t: string, i: nat, vars: Bindings, out: string, noted: seq<string>)
    requires i <= |t|
    ensures ScanAt(cl, t, i, vars, out, noted) == Scan(cl, t[i..], vars, out, noted)
    decreases |t| - i
  {
    if i < |t| {
      var (piece, next) := FirstAt(cl, t, i);
      FirstInSuffix(cl, t, i);
      assert t[i..][next - i..] == t[next..];
      ScanAtIsScan(cl, t, next, vars, out + RenderPiece(piece, vars), Note(noted, piece, vars));
    }
  }

  lemma FirstInSuffix(cl: Classes, t: string, i: nat)
    requires i < |t|
    ensures var (piece, next) := FirstAt(cl, t, i);
            First(cl, t[i..]) == (piece, next - i)
  {
    CloseInSuffix(t, i, i + 1);
    var j := FindClose(t, i + 1);
    assert j < |t| ==> t[i..][1..j - i] == t[i + 1..j];
  }

  lemma {:induction false} CloseInSuffix(t: string, i: nat, k: nat)
    requires i <= k <= |t|
    ensures FindClose(t[i..], k - i) == FindClose(t, k) - i
    decreases |t| - k
  {
  }

  /** The pass factors: parse the template alone, then render. */
  lemma {:induction false} ScanIsRenderOfParse(cl: Classes, t: string, vars: Bindings, out: string, noted: seq<string>)
    ensures Scan(cl, t, vars, out, noted) ==
            (out + Render(Parse(cl, t), vars), Missing(Parse(cl, t), vars, noted))
    decreases |t|
  {
    if t == "" {
      assert out + "" == out;
    } else {
      var (piece, n) := First(cl, t);
      var rest := Parse(cl, t[n..]);
      ScanIsRenderOfParse(cl, t[n..], vars, out + RenderPiece(piece, vars), Note(noted, piece, vars));
      RenderCons(piece, rest, vars);
      MissingCons(piece, rest, vars, noted);
      Assoc(out, RenderPiece(piece, vars), Render(rest, vars));
    }
  }

  lemma Assoc(a: string, b: string, c: string)
    ensures a + (b + c) == a + b + c
  {
  }

  lemma RenderCons(p: Piece, rest: seq<Piece>, vars: Bindings)
    ensures Render([p] + rest, vars) == RenderPiece(p, vars) + Render(rest, vars)
  {
  }

  lemma MissingCons(p: Piece, rest: seq<Piece>, vars: Bindings, noted: seq<string>)
    ensures Missing([p] + rest, vars, noted) == Missing(rest, vars, Note(noted, p, vars))
  {
  }

  // ---------- Bindings ----------

  /** `missing` lists exactly the unbound names of the template, each once, in order of first appearance. */
  lemma MissingIsExact(pieces: seq<Piece>, vars: Bindings)
    ensures var m := Missing(pieces, vars, []);
            && Distinct(m)
            && (forall name :: name in m <==> Var(name) in pieces && name !in vars)
            && (forall i, j :: 0 <= i < j < |m| ==> AppearsBefore(pieces, m[i], m[j]))
  {
    MissingGrows([], pieces, vars, []);
    assert [] + pieces == pieces;
  }

  /** Some occurrence of `x` comes before every occurrence of `y`. */
  ghost predicate AppearsBefore(pieces: seq<Piece>, x: string, y: string) {
    exists k :: 0 <= k < |pieces| && pieces[k] == Var(x) && Var(y) !in pieces[..k]
  }

  ghost predicate NotedSoFar(seen: seq<Piece>, vars: Bindings, noted: seq<string>) {
    && Distinct(noted)
    && (forall name :: name in noted <==> Var(name) in seen && name !in vars)
    && (forall i, j :: 0 <= i < j < |noted| ==> AppearsBefore(seen, noted[i], noted[j]))
  }

  lemma {:induction false} MissingGrows(seen: seq<Piece>, pieces: seq<Piece>, vars: Bindings, noted: seq<string>)
    requires NotedSoFar(seen, vars, noted)
    ensures NotedSoFar(seen + pieces, vars, Missing(pieces, vars, noted))
    decreases |pieces|
  {
    if pieces == [] {
      assert seen + pieces == seen;
    } else {
      NoteOne(seen, vars, noted, pieces[0]);
      MissingGrows(seen + [pieces[0]], pieces[1..], vars, Note(noted, pieces[0], vars));
      assert seen + [pieces[0]] + pieces[1..] == seen + pieces;
    }
  }

  lemma NoteOne(seen: seq<Piece>, vars: Bindings, noted: seq<string>, p: Piece)
    requires NotedSoFar(seen, vars, noted)
    ensures NotedSoFar(seen + [p], vars, Note(noted, p, vars))
  {
    var noted' := Note(noted, p, vars);
    forall i, j | 0 <= i < j < |noted'|
      ensures AppearsBefore(seen + [p], noted'[i], noted'[j])
    {
      if j < |noted| {
        var k :| 0 <= k < |seen| && seen[k] == Var(noted[i]) && Var(noted[j]) !in seen[..k];
        assert (seen + [p])[..k] == seen[..k];
        assert (seen + [p])[k] == Var(noted'[i]);
      } else {
        assert noted[i] in noted;
        var k :| 0 <= k < |seen| && seen[k] == Var(noted[i]);
        assert (seen + [p])[..k] == seen[..k];
        assert (seen + [p])[k] == Var(noted'[i]);
      }
    }
  }

  predicate AgreeOn(vars: Bindings, other: Bindings, name: string) {
    (name in vars <==> name in other) && (name in vars && name in other ==> vars[name] == other[name])
  }

  /** Bindings for names the template does not contain have no effect, and bound text is never looked at again. */
  lemma {:induction false} OnlyParsedNamesMatter(pieces: seq<Piece>, vars: Bindings, other: Bindings,
                                                 noted: seq<string>)
    requires forall i :: 0 <= i < |pieces| && pieces[i].Var? ==> AgreeOn(vars, other, pieces[i].name)
    ensures Render(pieces, vars) == Render(pieces, other)
    ensures Missing(pieces, vars, noted) == Missing(pieces, other, noted)
    decreases |pieces|
  {
    if pieces != [] {
      assert pieces[0].Var? ==> AgreeOn(vars, other, pieces[0].name);
      OnlyParsedNamesMatter(pieces[1..], vars, other, Note(noted, pieces[0], vars));
    }
  }

  // ---------- Escaping ----------

  function EscChar(c: char): string {
    if c == '{' || c == '}' then [c, c] else [c]
  }

  /** Doubles every brace. */
  function Esc(s: string): string {
    if s == "" then "" else EscChar(s[0]) + Esc(s[1..])
  }

  function Literals(s: string): seq<Piece> {
    seq(|s|, i requires 0 <= i < |s| => Lit(s[i]))
  }

  /** Template text for one piece. */
  function Quote(p: Piece): string {
    match p
    case Lit(c) => EscChar(c)
    case Var(name) => "{" + name + "}"
  }

  function Unparse(pieces: seq<Piece>): string {
    if pieces == [] then "" else Quote(pieces[0]) + Unparse(pieces[1..])
  }

  predicate WellFormed(cl: Classes, pieces: seq<Piece>) {
    forall i :: 0 <= i < |pieces| && pieces[i].Var? ==> cl.ValidName(pieces[i].name)
  }

  lemma {:induction false} ParseIsWellFormed(cl: Classes, t: string)
    ensures WellFormed(cl, Parse(cl, t))
    decreases |t|
  {
    if t != "" {
      ParseIsWellFormed(cl, t[First(cl, t).1..]);
    }
  }

  lemma QuoteIsFirst(cl: Classes, p: Piece, t: string)
    requires cl.Sane() && (p.Var? ==> cl.ValidName(p.name))
    ensures First(cl, Quote(p) + t) == (p, |Quote(p)|)
  {
    var s := Quote(p) + t;
    match p
    case Lit(c) =>
    case Var(name) =>
      assert s[0] == '{' && s[1] == name[0];
      assert s[|name| + 1] == '}';
      assert forall k :: 1 <= k < |name| + 1 ==> s[k] == name[k - 1] != '}';
      var j := FindClose(s, 1);
      assert j == |name| + 1;
      assert s[1..j] == name;
  }

  // ---------- The rules of substitution ----------

  /** The template starts with a placeholder whose name ends before `j`. */
  predicate Placeholder(cl: Classes, t: string, j: int) {
    && 1 < j < |t| && t[0] == '{' && t[j] == '}' && (cl.isAlphabetic(t[1]) || t[1] == '_')
    && forall k :: 1 < k < j ==> cl.isAlphanumeric(t[k]) || t[k] == '_'
  }

  lemma PlaceholderIsName(cl: Classes, t: string, j: int)
    requires 0 < j < |t|
    ensures Placeholder(cl, t, j) <==> t[0] == '{' && t[j] == '}' && cl.ValidName(t[1..j])
  {
    var name := t[1..j];
    assert forall k :: 1 <= k < j ==> t[k] == name[k - 1];
    if t[0] == '{' && t[j] == '}' && cl.ValidName(name) {
      forall k | 1 < k < j
        ensures cl.isAlphanumeric(t[k]) || t[k] == '_'
      {
        assert t[k] == name[k - 1];
      }
    }
  }

  predicate Doubled(t: string, brace: char) {
    |t| > 1 && t[0] == t[1] == brace
  }

  /** What the first piece of a template is; a brace that is neither doubled nor part of a placeholder is itself. */
  lemma ParseRules(cl: Classes, t: string)
    requires cl.Sane() && t != ""
    ensures forall brace :: brace in {'{', '}'} && Doubled(t, brace) ==>
              Parse(cl, t) == [Lit(brace)] + Parse(cl, t[2..])
    ensures forall j :: Placeholder(cl, t, j) ==> Parse(cl, t) == [Var(t[1..j])] + Parse(cl, t[j + 1..])
    ensures !Doubled(t, '{') && !Doubled(t, '}') && (forall j :: !Placeholder(cl, t, j)) ==>
              Parse(cl, t) == [Lit(t[0])] + Parse(cl, t[1..])
  {
    forall j | Placeholder(cl, t, j)
      ensures First(cl, t) == (Var(t[1..j]), j + 1)
    {
      PlaceholderIsFirst(cl, t, j);
    }
    if t[0] == '{' && !Doubled(t, '{') {
      var j := FindClose(t, 1);
      if j < |t| {
        PlaceholderIsName(cl, t, j);
      }
    }
  }

  lemma PlaceholderIsFirst(cl: Classes, t: string, j: int)
    requires cl.Sane() && Placeholder(cl, t, j)
    ensures First(cl, t) == (Var(t[1..j]), j + 1)
  {
    PlaceholderIsName(cl, t, j);
  }

  /** The rules, for what comes out: a bound placeholder is replaced by its value, and what is behind it as ever. */
  ghost predicate Substitutes(cl: Classes, t: string, vars: Bindings, out: string) {
    && (t == "" ==> out == "")
    && (forall brace :: brace in {'{', '}'} && Doubled(t, brace) ==> out == [brace] + Render(Parse(cl, t[2..]), vars))
    && (forall j :: Placeholder(cl, t, j) ==>
          var name := t[1..j];
          out == (if name in vars then vars[name] else t[..j + 1]) + Render(Parse(cl, t[j + 1..]), vars))
    && (t != "" && !Doubled(t, '{') && !Doubled(t, '}') && (forall j :: !Placeholder(cl, t, j)) ==>
          out == [t[0]] + Render(Parse(cl, t[1..]), vars))
  }

  lemma PlaceholderRule(cl: Classes, t: string, vars: Bindings, j: int)
    requires cl.Sane() && Placeholder(cl, t, j) && Parse(cl, t) == [Var(t[1..j])] + Parse(cl, t[j + 1..])
    ensures var name := t[1..j];
            Render(Parse(cl, t), vars) ==
            (if name in vars then vars[name] else t[..j + 1]) + Render(Parse(cl, t[j + 1..]), vars)
  {
    assert t[..j + 1] == "{" + t[1..j] + "}";
    RenderCons(Var(t[1..j]), Parse(cl, t[j + 1..]), vars);
  }

  lemma LiteralRule(cl: Classes, t: string, vars: Bindings, c: char, n: nat)
    requires n <= |t| && Parse(cl, t) == [Lit(c)] + Parse(cl, t[n..])
    ensures Render(Parse(cl, t), vars) == [c] + Render(Parse(cl, t[n..]), vars)
  {
    RenderCons(Lit(c), Parse(cl, t[n..]), vars);
  }

  lemma SubstitutionRules(cl: Classes, t: string, vars: Bindings)
    requires cl.Sane()
    ensures Substitutes(cl, t, vars, Render(Parse(cl, t), vars))
  {
    if t != "" {
      ParseRules(cl, t);
      if Doubled(t, '{') || Doubled(t, '}') {
        LiteralRule(cl, t, vars, t[0], 2);
      } else if forall j :: !Placeholder(cl, t, j) {
        LiteralRule(cl, t, vars, t[0], 1);
      }
      forall j | Placeholder(cl, t, j)
        ensures var name := t[1..j];
                Render(Parse(cl, t), vars) ==
                (if name in vars then vars[name] else t[..j + 1]) + Render(Parse(cl, t[j + 1..]), vars)
      {
        PlaceholderRule(cl, t, vars, j);
      }
    }
  }

  /** A placeholder in front of any template is replaced by the value bound to it, or stays. */
  lemma PlaceholderIsReplaced(cl: Classes, name: string, t: string, vars: Bindings)
    requires cl.Sane() && cl.ValidName(name)
    ensures Render(Parse(cl, "{" + name + "}" + t), vars) ==
            (if name in vars then vars[name] else "{" + name + "}") + Render(Parse(cl, t), vars)
  {
    ParseQuoted(cl, Var(name), t);
    RenderCons(Var(name), Parse(cl, t), vars);
  }

  lemma ParseQuoted(cl: Classes, p: Piece, t: string)
    requires cl.Sane() && (p.Var? ==> cl.ValidName(p.name))
    ensures Parse(cl, Quote(p) + t) == [p] + Parse(cl, t)
  {
    QuoteIsFirst(cl, p, t);
    assert (Quote(p) + t)[|Quote(p)|..] == t;
  }

  /** Whatever is assembled from quoted pieces parses back to those pieces, in front of any template. */
  lemma {:induction false} ParseUnparse(cl: Classes, pieces: seq<Piece>, t: string)
    requires cl.Sane() && WellFormed(cl, pieces)
    ensures Parse(cl, Unparse(pieces) + t) == pieces + Parse(cl, t)
    decreases |pieces|
  {
    if pieces == [] {
      assert Unparse(pieces) + t == t;
      assert pieces + Parse(cl, t) == Parse(cl, t);
    } else {
      Assoc(Quote(pieces[0]), Unparse(pieces[1..]), t);
      ParseQuoted(cl, pieces[0], Unparse(pieces[1..]) + t);
      ParseUnparse(cl, pieces[1..], t);
      ConsConcat(pieces, Parse(cl, t));
    }
  }

  lemma ConsConcat(p: seq<Piece>, q: seq<Piece>)
    requires p != []
    ensures [p[0]] + (p[1..] + q) == p + q
  {
  }

  /** Parsing loses nothing but the spelling: re-quoting a parse and parsing again gives the same pieces. */
  lemma ParseNormalForm(cl: Classes, t: string)
    requires cl.Sane()
    ensures Parse(cl, Unparse(Parse(cl, t))) == Parse(cl, t)
  {
    ParseIsWellFormed(cl, t);
    ParseUnparse(cl, Parse(cl, t), "");
    assert Unparse(Parse(cl, t)) + "" == Unparse(Parse(cl, t));
  }

  lemma {:induction false} EscIsUnparse(s: string)
    ensures Esc(s) == Unparse(Literals(s))
  {
    if s != "" {
      EscIsUnparse(s[1..]);
      assert Literals(s)[1..] == Literals(s[1..]);
    }
  }

  lemma {:induction false} RenderConcat(p: seq<Piece>, q: seq<Piece>, vars: Bindings)
    ensures Render(p + q, vars) == Render(p, vars) + Render(q, vars)
  {
    if p == [] {
      assert p + q == q;
    } else {
      RenderConcat(p[1..], q, vars);
      assert p + q == [p[0]] + (p[1..] + q);
      RenderCons(p[0], p[1..] + q, vars);
      Assoc(RenderPiece(p[0], vars), Render(p[1..], vars), Render(q, vars));
    }
  }

  lemma {:induction false} RenderLiterals(s: string, q: seq<Piece>, vars: Bindings, noted: seq<string>)
    ensures Render(Literals(s), vars) == s
    ensures Missing(Literals(s) + q, vars, noted) == Missing(q, vars, noted)
  {
    if s == "" {
      assert Literals(s) + q == q;
    } else {
      RenderLiterals(s[1..], q, vars, noted);
      assert Literals(s)[1..] == Literals(s[1..]);
      assert (Literals(s) + q)[1..] == Literals(s[1..]) + q;
    }
  }

  /** Escaped text in front of a template comes out verbatim and disturbs nothing behind it. */
  lemma EscapeRoundTrip(cl: Classes, s: string, t: string, vars: Bindings)
    requires cl.Sane()
    ensures Render(Parse(cl, Esc(s) + t), vars) == s + Render(Parse(cl, t), vars)
    ensures Missing(Parse(cl, Esc(s) + t), vars, []) == Missing(Parse(cl, t), vars, [])
    ensures Render(Parse(cl, Esc(s)), vars) == s && Missing(Parse(cl, Esc(s)), vars, []) == []
  {
    EscIsUnparse(s);
    ParseUnparse(cl, Literals(s), t);
    ParseUnparse(cl, Literals(s), "");
    assert Esc(s) + "" == Esc(s);
    assert Literals(s) + Parse(cl, "") == Literals(s);
    RenderConcat(Literals(s), Parse(cl, t), vars);
    RenderLiterals(s, Parse(cl, t), vars, []);
    RenderLiterals(s, [], vars, []);
    assert Literals(s) + [] == Literals(s);
  }
}
