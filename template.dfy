/** The template engine (`CombinerTemplate`): a text holding `{NAME}`
    placeholders, and a rendering that replaces, key after key in the
    iteration order of the field map, every occurrence of the key's
    placeholder by its value. */
module Template {
  import opened Text

  /** `format!("{{{}}}", key)`: the placeholder of `key`. */
  function Token(key: string): string {
    "{" + key + "}"
  }

  /** `str::replace`: the occurrences of `pat`, found from left to right
      without overlapping, each replaced by `rep`. */
  function ReplaceAll(s: string, pat: string, rep: string): string
    requires pat != []
    decreases |s|
  {
    if |s| < |pat| then s
    else if s[..|pat|] == pat then rep + ReplaceAll(s[|pat|..], pat, rep)
    else [s[0]] + ReplaceAll(s[1..], pat, rep)
  }

  /** `pat` occurs in `s` at index `i`. */
  predicate At(s: string, pat: string, i: nat) {
    i + |pat| <= |s| && s[i..i + |pat|] == pat
  }

  ghost predicate Occurs(s: string, pat: string) {
    exists i: nat :: At(s, pat, i)
  }

  /** Replacing a pattern that does not occur changes nothing. */
  lemma {:induction false} ReplaceAllAbsent(s: string, pat: string, rep: string)
    requires pat != [] && !Occurs(s, pat)
    ensures ReplaceAll(s, pat, rep) == s
    decreases |s|
  {
    if |s| >= |pat| {
      assert !At(s, pat, 0);
      AbsentFromTail(s, pat);
      ReplaceAllAbsent(s[1..], pat, rep);
      assert s == [s[0]] + s[1..];
    }
  }

  lemma AbsentFromTail(s: string, pat: string)
    requires s != [] && !Occurs(s, pat)
    ensures !Occurs(s[1..], pat)
  {
    forall i: nat | i + |pat| <= |s| - 1 ensures !At(s[1..], pat, i) {
      assert s[i + 1..i + 1 + |pat|] == s[1..][i..i + |pat|];
      assert !At(s, pat, i + 1);
    }
  }

  /** The fold computed by `generate_output_file_content`: the template
      after the replace-all of each entry, in the order the entries are
      visited. */
  function Render(template: string, fields: seq<(string, string)>): string
    decreases |fields|
  {
    if fields == [] then template
    else Render(ReplaceAll(template, Token(fields[0].0), fields[0].1), fields[1..])
  }

  datatype CombinerTemplate = CombinerTemplate(template: string)
  {
    /** `CombinerTemplate::from_string`: keeps the text as given. */
    static function FromString(templateString: string): CombinerTemplate {
      CombinerTemplate(templateString)
    }

    /** `generate_output_file_content`, over the entries of the field map
        listed in its iteration order. */
    method GenerateOutputFileContent(templateFields: seq<(string, string)>) returns (output: string)
      ensures output == Render(template, templateFields)
    {
      output := template;
      for i := 0 to |templateFields|
        invariant Render(output, templateFields[i..]) == Render(template, templateFields)
      {
        var (key, value) := templateFields[i];
        assert templateFields[i..][1..] == templateFields[i + 1..];
        output := ReplaceAll(output, Token(key), value);
      }
    }
  }

  /** A template whose text contains none of the keys' placeholders renders
      to its text exactly; in particular with no fields at all. */
  lemma {:induction false} RenderWithoutPlaceholders(templateString: string, fields: seq<(string, string)>)
    requires forall i :: 0 <= i < |fields| ==> !Occurs(templateString, Token(fields[i].0))
    ensures Render(CombinerTemplate.FromString(templateString).template, fields) == templateString
  {
    if fields != [] {
      ReplaceAllAbsent(templateString, Token(fields[0].0), fields[0].1);
      RenderWithoutPlaceholders(templateString, fields[1..]);
    }
  }

  /** A template seen as literal text and placeholders. */
  datatype Piece = Lit(text: string) | Tok(name: string)

  function PieceText(p: Piece): string {
    match p
    case Lit(t) => t
    case Tok(n) => Token(n)
  }

  function Flatten(ps: seq<Piece>): string {
    if ps == [] then "" else PieceText(ps[0]) + Flatten(ps[1..])
  }

  predicate BraceFree(s: string) {
    '{' !in s && '}' !in s
  }

  /** Literal text without "{", or a placeholder whose name holds no brace. */
  predicate PieceOk(p: Piece) {
    (p.Lit? ==> '{' !in p.text) && (p.Tok? ==> BraceFree(p.name))
  }

  /** Every "{" of the text opens a placeholder whose name holds no brace. */
  ghost predicate WellFormedPieces(ps: seq<Piece>) {
    forall i :: 0 <= i < |ps| ==> PieceOk(ps[i])
  }

  /** Keys without braces and values without "{". */
  ghost predicate PlainFields(fields: seq<(string, string)>) {
    forall i :: 0 <= i < |fields| ==> BraceFree(fields[i].0) && '{' !in fields[i].1
  }

  ghost predicate DistinctKeys(fields: seq<(string, string)>) {
    forall i, j :: 0 <= i < j < |fields| ==> fields[i].0 != fields[j].0
  }

  /** The value of the first entry whose key is `name`. */
  function Lookup(fields: seq<(string, string)>, name: string): (r: Option<string>)
    ensures r.None? <==> forall i :: 0 <= i < |fields| ==> fields[i].0 != name
    ensures r.Some? ==> (name, r.value) in fields
  {
    if fields == [] then None
    else if fields[0].0 == name then Some(fields[0].1)
    else Lookup(fields[1..], name)
  }

  /** Each placeholder whose name is a key becomes the first value of that
      key; other placeholders and the literal text stay. */
  function Resolve(ps: seq<Piece>, fields: seq<(string, string)>): (r: seq<Piece>)
    ensures |r| == |ps|
  {
    if ps == [] then []
    else
      var p := match ps[0]
        case Lit(t) => Lit(t)
        case Tok(n) => (match Lookup(fields, n) case Some(v) => Lit(v) case None => Tok(n));
      [p] + Resolve(ps[1..], fields)
  }

  /** Literal text without "{" cannot hold the start of a placeholder. */
  lemma {:induction false} ReplaceAfterLiteral(t: string, r: string, pat: string, rep: string)
    requires pat != [] && pat[0] == '{' && '{' !in t
    ensures ReplaceAll(t + r, pat, rep) == t + ReplaceAll(r, pat, rep)
    decreases |t|
  {
    if t != [] {
      var s := t + r;
      assert s[0] == t[0] && t[0] != '{';
      if |s| >= |pat| {
        assert s[..|pat|] != pat by {
          assert s[..|pat|][0] == s[0];
        }
        assert s[1..] == t[1..] + r;
        assert '{' !in t[1..];
        ReplaceAfterLiteral(t[1..], r, pat, rep);
        calc {
          ReplaceAll(s, pat, rep);
          [t[0]] + ReplaceAll(t[1..] + r, pat, rep);
          [t[0]] + (t[1..] + ReplaceAll(r, pat, rep));
          { assert [t[0]] + t[1..] == t; }
          t + ReplaceAll(r, pat, rep);
        }
      } else {
        assert ReplaceAll(r, pat, rep) == r;
      }
    } else {
      assert t + r == r;
    }
  }

  /** A placeholder of another name is not a placeholder of `k`. */
  lemma TokenMismatch(n: string, k: string, r: string)
    requires BraceFree(n) && BraceFree(k) && n != k
    requires |Token(n) + r| >= |Token(k)|
    ensures (Token(n) + r)[..|Token(k)|] != Token(k)
  {
    var s, pat := Token(n) + r, Token(k);
    if |n| == |k| {
      assert s[1..|k| + 1] == n && pat[1..|k| + 1] == k;
    } else if |n| < |k| {
      assert s[|n| + 1] == '}' && pat[|n| + 1] == k[|n|];
    } else {
      assert s[|k| + 1] == n[|k|] && pat[|k| + 1] == '}';
    }
  }

  /** A placeholder followed by more text: replaced when it is the key's,
      kept otherwise. */
  lemma ReplaceAfterToken(n: string, r: string, k: string, v: string)
    requires BraceFree(n) && BraceFree(k)
    ensures ReplaceAll(Token(n) + r, Token(k), v)
         == (if n == k then v else Token(n)) + ReplaceAll(r, Token(k), v)
  {
    var s, pat := Token(n) + r, Token(k);
    if n == k {
      assert s[..|pat|] == pat && s[|pat|..] == r;
    } else if |s| < |pat| {
      assert ReplaceAll(r, pat, v) == r;
    } else {
      TokenMismatch(n, k, r);
      assert s[0] == '{';
      assert s[1..] == (n + "}") + r;
      ReplaceAfterLiteral(n + "}", r, pat, v);
      calc {
        ReplaceAll(s, pat, v);
        [s[0]] + ReplaceAll((n + "}") + r, pat, v);
        [s[0]] + ((n + "}") + ReplaceAll(r, pat, v));
        { assert [s[0]] + (n + "}") == Token(n); }
        Token(n) + ReplaceAll(r, pat, v);
      }
    }
  }

  /** One replace-all over a well-formed template substitutes exactly the
      placeholders of that key. */
  lemma {:induction false} ReplacePieces(ps: seq<Piece>, k: string, v: string)
    requires WellFormedPieces(ps) && BraceFree(k)
    ensures ReplaceAll(Flatten(ps), Token(k), v) == Flatten(Resolve(ps, [(k, v)]))
  {
    if ps != [] {
      ReplacePieces(ps[1..], k, v);
      match ps[0]
      case Lit(t) =>
        ReplaceAfterLiteral(t, Flatten(ps[1..]), Token(k), v);
      case Tok(n) =>
        ReplaceAfterToken(n, Flatten(ps[1..]), k, v);
    }
  }

  lemma {:induction false} ResolveNothing(ps: seq<Piece>)
    ensures Resolve(ps, []) == ps
  {
    if ps != [] {
      ResolveNothing(ps[1..]);
      match ps[0]
      case Lit(t) =>
      case Tok(n) =>
    }
  }

  /** Resolving one key and then the rest is resolving them all at once. */
  lemma {:induction false} ResolveStep(ps: seq<Piece>, k: string, v: string, rest: seq<(string, string)>)
    ensures Resolve(Resolve(ps, [(k, v)]), rest) == Resolve(ps, [(k, v)] + rest)
  {
    if ps != [] {
      ResolveStep(ps[1..], k, v, rest);
      assert ([(k, v)] + rest)[1..] == rest;
      match ps[0]
      case Lit(t) =>
      case Tok(n) =>
    }
  }

  lemma ResolveKeepsWellFormed(ps: seq<Piece>, fields: seq<(string, string)>)
    requires WellFormedPieces(ps) && PlainFields(fields)
    ensures WellFormedPieces(Resolve(ps, fields))
    ensures |Resolve(ps, fields)| == |ps|
  {
    if ps != [] {
      ResolveKeepsWellFormed(ps[1..], fields);
      var r := Resolve(ps, fields);
      assert r[1..] == Resolve(ps[1..], fields);
      match ps[0]
      case Lit(t) =>
      case Tok(n) =>
        match Lookup(fields, n)
        case None =>
        case Some(v) =>
          var i :| 0 <= i < |fields| && fields[i] == (n, v);
    }
  }

  /** For a well-formed template and plain fields, rendering replaces each
      placeholder by the first value of its key and leaves every other
      placeholder and all literal text as it is. */
  lemma {:induction false} RenderPieces(ps: seq<Piece>, fields: seq<(string, string)>)
    requires WellFormedPieces(ps) && PlainFields(fields)
    ensures Render(Flatten(ps), fields) == Flatten(Resolve(ps, fields))
    decreases |fields|
  {
    if fields == [] {
      ResolveNothing(ps);
    } else {
      var (k, v) := fields[0];
      ReplacePieces(ps, k, v);
      assert PlainFields([(k, v)]);
      ResolveKeepsWellFormed(ps, [(k, v)]);
      RenderPieces(Resolve(ps, [(k, v)]), fields[1..]);
      ResolveStep(ps, k, v, fields[1..]);
      assert [(k, v)] + fields[1..] == fields;
    }
  }

  /** With distinct keys, the first value of a key is its only value. */
  lemma LookupDistinct(fields: seq<(string, string)>, name: string, value: string)
    requires DistinctKeys(fields)
    ensures Lookup(fields, name) == Some(value) <==> (name, value) in fields
  {
    if fields != [] && fields[0].0 != name {
      LookupDistinct(fields[1..], name, value);
    }
  }

  /** The iteration order of the field map does not matter when the
      template is well formed and no value contains "{": two orders of the
      same entries render the same text. */
  lemma RenderOrderIndependent(ps: seq<Piece>, f1: seq<(string, string)>, f2: seq<(string, string)>)
    requires WellFormedPieces(ps) && PlainFields(f1) && PlainFields(f2)
    requires DistinctKeys(f1) && DistinctKeys(f2)
    requires forall e :: e in f1 <==> e in f2
    ensures Render(Flatten(ps), f1) == Render(Flatten(ps), f2)
  {
    RenderPieces(ps, f1);
    RenderPieces(ps, f2);
    forall n: string ensures Lookup(f1, n) == Lookup(f2, n) {
      var l1 := Lookup(f1, n);
      var l2 := Lookup(f2, n);
      if l1.Some? {
        LookupDistinct(f1, n, l1.value);
        LookupDistinct(f2, n, l1.value);
      } else if l2.Some? {
        LookupDistinct(f1, n, l2.value);
        LookupDistinct(f2, n, l2.value);
      }
    }
    ResolveSameLookups(ps, f1, f2);
  }

  lemma {:induction false} ResolveSameLookups(ps: seq<Piece>, f1: seq<(string, string)>, f2: seq<(string, string)>)
    requires forall n :: Lookup(f1, n) == Lookup(f2, n)
    ensures Resolve(ps, f1) == Resolve(ps, f2)
  {
    if ps != [] {
      ResolveSameLookups(ps[1..], f1, f2);
    }
  }

  /** Two adjacent placeholders render to the two values whichever entry is
      visited first. */
  lemma AdjacentPlaceholders()
    ensures Render("{A}{B}", [("A", "x"), ("B", "y")]) == "xy"
    ensures Render("{A}{B}", [("B", "y"), ("A", "x")]) == "xy"
  {
    AdjacentPlaceholdersIn([("A", "x"), ("B", "y")]);
    AdjacentPlaceholdersIn([("B", "y"), ("A", "x")]);
  }

  lemma AdjacentPlaceholdersIn(f: seq<(string, string)>)
    requires PlainFields(f) && Lookup(f, "A") == Some("x") && Lookup(f, "B") == Some("y")
    ensures Render("{A}{B}", f) == "xy"
  {
    var ps := [Tok("A"), Tok("B")];
    assert Flatten(ps) == "{A}{B}";
    assert ps[1..] == [Tok("B")] && ps[1..][1..] == [];
    assert Resolve(ps[1..], f) == [Lit("y")] + Resolve([], f);
    assert Resolve(ps, f) == [Lit("x"), Lit("y")];
    assert Flatten([Lit("x"), Lit("y")]) == "xy";
    RenderPieces(ps, f);
  }

  /** A placeholder whose name is not a key stays in the output literally. */
  lemma UnknownPlaceholderKept()
    ensures Render("{A}{C}", [("A", "x"), ("B", "y")]) == "x{C}"
  {
    var ps := [Tok("A"), Tok("C")];
    assert Flatten(ps) == "{A}{C}";
    RenderPieces(ps, [("A", "x"), ("B", "y")]);
  }

  /** Substitution is not single-pass: a value holding the placeholder of a
      key visited later is expanded, so the output depends on the visiting
      order. */
  lemma LaterKeyExpandsEarlierValue()
    ensures Render("{A}", [("A", "{B}"), ("B", "y")]) == "y"
    ensures Render("{A}", [("B", "y"), ("A", "{B}")]) == "{B}"
  {
    assert ReplaceAll("{A}", "{A}", "{B}") == "{B}";
    assert ReplaceAll("{B}", "{B}", "y") == "y";
    ReplaceAllAbsent("{A}", "{B}", "y");
  }

  /** A template built from literal texts and placeholder names: the first
      literal, the first placeholder, the second literal, and so on, ending
      with the last literal. */
  function Pieces(lits: seq<string>, names: seq<string>): seq<Piece>
    requires |lits| == |names| + 1
    decreases names
  {
    if names == [] then [Lit(lits[0])]
    else [Lit(lits[0]), Tok(names[0])] + Pieces(lits[1..], names[1..])
  }

  /** Literal texts with values between them. */
  function Interleave(lits: seq<string>, vals: seq<string>): string
    requires |lits| == |vals| + 1
    decreases vals
  {
    if vals == [] then lits[0]
    else lits[0] + vals[0] + Interleave(lits[1..], vals[1..])
  }

  /** The placeholder text of each name. */
  function Tokens(names: seq<string>): (r: seq<string>)
    ensures |r| == |names| && forall i :: 0 <= i < |names| ==> r[i] == Token(names[i])
  {
    if names == [] then [] else [Token(names[0])] + Tokens(names[1..])
  }

  /** The text of a template built from pieces is its literals with the
      placeholders between them. */
  lemma {:induction false} FlattenPieces(lits: seq<string>, names: seq<string>)
    requires |lits| == |names| + 1
    ensures Flatten(Pieces(lits, names)) == Interleave(lits, Tokens(names))
    decreases names
  {
    if names == [] {
      assert Flatten([Lit(lits[0])]) == lits[0] + Flatten([]);
      assert lits[0] + [] == lits[0];
    } else {
      FlattenPieces(lits[1..], names[1..]);
      var ps := Pieces(lits, names);
      assert ps[1..][1..] == Pieces(lits[1..], names[1..]);
      assert Tokens(names)[1..] == Tokens(names[1..]);
    }
  }

  /** Literals without "{" and names without braces make a well-formed
      template. */
  lemma {:induction false} PiecesWellFormed(lits: seq<string>, names: seq<string>)
    requires |lits| == |names| + 1
    requires forall i :: 0 <= i < |lits| ==> '{' !in lits[i]
    requires forall i :: 0 <= i < |names| ==> BraceFree(names[i])
    ensures WellFormedPieces(Pieces(lits, names))
    decreases names
  {
    if names != [] {
      PiecesWellFormed(lits[1..], names[1..]);
      assert '{' !in lits[0] && BraceFree(names[0]);
    }
  }

  /** Resolving the pieces puts each name's value between the literals. */
  lemma {:induction false} ResolvePieces(lits: seq<string>, names: seq<string>, vals: seq<string>, fields: seq<(string, string)>)
    requires |lits| == |names| + 1 && |vals| == |names|
    requires forall i :: 0 <= i < |names| ==> Lookup(fields, names[i]) == Some(vals[i])
    ensures Flatten(Resolve(Pieces(lits, names), fields)) == Interleave(lits, vals)
    decreases names
  {
    var ps := Pieces(lits, names);
    var r := Resolve(ps, fields);
    if names == [] {
      assert ps == [Lit(lits[0])] && ps[1..] == [];
      assert r == [Lit(lits[0])] + Resolve([], fields);
      assert Flatten(r) == lits[0] + Flatten([]);
      assert lits[0] + [] == lits[0];
    } else {
      assert Lookup(fields, names[0]) == Some(vals[0]);
      ResolvePieces(lits[1..], names[1..], vals[1..], fields);
      assert r[1..] == Resolve(ps[1..], fields);
      assert ps[1..][1..] == Pieces(lits[1..], names[1..]);
      assert r[1..][1..] == Resolve(Pieces(lits[1..], names[1..]), fields);
    }
  }

  /** A template whose literal text holds no "{" renders to its literals
      with the looked-up value of each placeholder between them. */
  lemma RenderInterleaved(lits: seq<string>, names: seq<string>, vals: seq<string>, fields: seq<(string, string)>)
    requires |lits| == |names| + 1 && |vals| == |names|
    requires forall i :: 0 <= i < |lits| ==> '{' !in lits[i]
    requires forall i :: 0 <= i < |names| ==> BraceFree(names[i])
    requires PlainFields(fields)
    requires forall i :: 0 <= i < |names| ==> Lookup(fields, names[i]) == Some(vals[i])
    ensures Render(Interleave(lits, Tokens(names)), fields) == Interleave(lits, vals)
  {
    FlattenPieces(lits, names);
    PiecesWellFormed(lits, names);
    RenderPieces(Pieces(lits, names), fields);
    ResolvePieces(lits, names, vals, fields);
  }

  /** `s` holds the placeholder of none of `keys`. */
  ghost predicate NoTokens(s: string, keys: seq<string>) {
    forall j :: 0 <= j < |keys| ==> !Occurs(s, Token(keys[j]))
  }

  /** Each literal after the first starts with a character found in no
      placeholder of `keys`, or is the empty text that ends the template:
      no placeholder can begin inside an inserted value and end in the
      literal after it. */
  ghost predicate Separators(lits: seq<string>, keys: seq<string>) {
    forall i :: 1 <= i < |lits| ==>
      if lits[i] == [] then i == |lits| - 1
      else forall j :: 0 <= j < |keys| ==> lits[i][0] !in Token(keys[j])
  }

  /** Text in which `pat` does not occur, followed by nothing or by text
      whose first character is not in `pat`, is kept. */
  lemma {:induction false} ReplaceAfterValue(v: string, r: string, pat: string, w: string)
    requires pat != [] && !Occurs(v, pat)
    requires r == [] || r[0] !in pat
    ensures ReplaceAll(v + r, pat, w) == v + ReplaceAll(r, pat, w)
    decreases |v|
  {
    var s := v + r;
    if v == [] {
      assert s == r;
    } else if |s| < |pat| {
      assert ReplaceAll(r, pat, w) == r;
    } else {
      calc {
        ReplaceAll(s, pat, w);
        { NotAtValueStart(v, r, pat); }
        [s[0]] + ReplaceAll(s[1..], pat, w);
        { TailOfConcat(v, r); }
        [v[0]] + ReplaceAll(v[1..] + r, pat, w);
        { AbsentFromTail(v, pat);
          ReplaceAfterValue(v[1..], r, pat, w); }
        [v[0]] + (v[1..] + ReplaceAll(r, pat, w));
        { assert [v[0]] + v[1..] == v; }
        v + ReplaceAll(r, pat, w);
      }
    }
  }

  lemma TailOfConcat(v: string, r: string)
    requires v != []
    ensures (v + r)[0] == v[0] && (v + r)[1..] == v[1..] + r
  {
  }

  /** `pat` does not start at the head of such text: it would lie inside
      the value or reach the foreign character after it. */
  lemma NotAtValueStart(v: string, r: string, pat: string)
    requires v != [] && !Occurs(v, pat)
    requires r == [] || r[0] !in pat
    requires |v + r| >= |pat|
    ensures (v + r)[..|pat|] != pat
  {
    var s := v + r;
    if |v| >= |pat| {
      assert s[..|pat|] == v[..|pat|];
      assert !At(v, pat, 0);
    } else {
      assert s[..|pat|][|v|] == r[0];
    }
  }

  /** A slot between two literals: a placeholder of one of `names`, or an
      inserted value holding no placeholder of `keys`. */
  ghost predicate SlotOk(p: Piece, names: seq<string>, keys: seq<string>) {
    match p
    case Tok(n) => BraceFree(n) && n in names
    case Lit(v) => NoTokens(v, keys)
  }

  function SlotTexts(ps: seq<Piece>): (r: seq<string>)
    ensures |r| == |ps| && forall i :: 0 <= i < |ps| ==> r[i] == PieceText(ps[i])
  {
    if ps == [] then [] else [PieceText(ps[0])] + SlotTexts(ps[1..])
  }

  lemma InterleaveStart(lits: seq<string>, vals: seq<string>)
    requires |lits| == |vals| + 1
    ensures |lits[0]| <= |Interleave(lits, vals)| && Interleave(lits, vals)[..|lits[0]|] == lits[0]
  {
  }

  /** Resolving works slot by slot. */
  lemma {:induction false} ResolveAt(ps: seq<Piece>, fields: seq<(string, string)>)
    ensures |Resolve(ps, fields)| == |ps|
    ensures forall i :: 0 <= i < |ps| ==> Resolve(ps, fields)[i] == Resolve([ps[i]], fields)[0]
  {
    if ps != [] {
      ResolveAt(ps[1..], fields);
      var r := Resolve(ps, fields);
      assert r[1..] == Resolve(ps[1..], fields);
      forall i | 0 <= i < |ps| ensures r[i] == Resolve([ps[i]], fields)[0] {
        if i > 0 {
          assert ps[1..][i - 1] == ps[i];
        } else {
          assert [ps[0]][1..] == [];
        }
      }
    }
  }

  /** A slot followed by the rest of the template: its placeholder is
      replaced when it is the key's, and an inserted value is kept. */
  lemma ReplaceAfterSlot(p: Piece, rest: string, names: seq<string>, keys: seq<string>, k: string, w: string)
    requires SlotOk(p, names, keys) && k in keys && BraceFree(k)
    requires p.Lit? ==> rest == [] || rest[0] !in Token(k)
    ensures ReplaceAll(PieceText(p) + rest, Token(k), w)
         == PieceText(Resolve([p], [(k, w)])[0]) + ReplaceAll(rest, Token(k), w)
  {
    assert [(k, w)][1..] == [];
    match p
    case Tok(n) =>
      ReplaceAfterToken(n, rest, k, w);
    case Lit(v) =>
      var j :| 0 <= j < |keys| && keys[j] == k;
      assert !Occurs(v, Token(keys[j]));
      ReplaceAfterValue(v, rest, Token(k), w);
  }

  /** What follows a slot starts with the next literal. */
  lemma WovenTail(lits: seq<string>, vals: seq<string>, keys: seq<string>, k: string)
    requires |lits| == |vals| + 1 && |lits| >= 2 && Separators(lits, keys) && k in keys
    ensures Separators(lits[1..], keys)
    ensures var rest := Interleave(lits[1..], vals[1..]);
      rest == [] || rest[0] !in Token(k)
  {
    forall i | 1 <= i < |lits[1..]| ensures lits[1..][i] == lits[i + 1] { }
    var j :| 0 <= j < |keys| && keys[j] == k;
    if lits[1] != [] {
      InterleaveStart(lits[1..], vals[1..]);
      assert Interleave(lits[1..], vals[1..])[0] == lits[1][0];
    } else {
      assert |vals[1..]| == 0;
    }
  }

  /** One replace-all over literals and slots replaces exactly the
      placeholders of its key, even where the values between the literals
      hold braces. */
  lemma {:induction false} ReplaceWoven(lits: seq<string>, slots: seq<Piece>, names: seq<string>, keys: seq<string>, k: string, w: string)
    requires |lits| == |slots| + 1 && Separators(lits, keys)
    requires forall i :: 0 <= i < |lits| ==> '{' !in lits[i]
    requires forall i :: 0 <= i < |slots| ==> SlotOk(slots[i], names, keys)
    requires k in keys && BraceFree(k)
    ensures ReplaceAll(Interleave(lits, SlotTexts(slots)), Token(k), w)
         == Interleave(lits, SlotTexts(Resolve(slots, [(k, w)])))
    decreases slots
  {
    var pat := Token(k);
    if slots == [] {
      ReplaceAfterLiteral(lits[0], [], pat, w);
      assert lits[0] + [] == lits[0];
    } else {
      var ts := SlotTexts(slots);
      var rest := Interleave(lits[1..], ts[1..]);
      var rs := Resolve(slots, [(k, w)]);
      WovenTail(lits, ts, keys, k);
      calc {
        ReplaceAll(Interleave(lits, ts), pat, w);
        { InterleaveCons(lits, ts); }
        ReplaceAll(lits[0] + (ts[0] + rest), pat, w);
        { ReplaceAfterLiteral(lits[0], ts[0] + rest, pat, w); }
        lits[0] + ReplaceAll(ts[0] + rest, pat, w);
        { ReplaceAfterSlot(slots[0], rest, names, keys, k, w);
          ResolveCons(slots, [(k, w)]); }
        lits[0] + (PieceText(rs[0]) + ReplaceAll(rest, pat, w));
        { assert ts[1..] == SlotTexts(slots[1..]);
          ReplaceWoven(lits[1..], slots[1..], names, keys, k, w);
          ResolveCons(slots, [(k, w)]); }
        lits[0] + (PieceText(rs[0]) + Interleave(lits[1..], SlotTexts(rs[1..])));
        { InterleaveCons(lits, SlotTexts(rs));
          assert SlotTexts(rs)[1..] == SlotTexts(rs[1..]); }
        Interleave(lits, SlotTexts(rs));
      }
    }
  }

  lemma InterleaveCons(lits: seq<string>, vals: seq<string>)
    requires |lits| == |vals| + 1 && vals != []
    ensures Interleave(lits, vals) == lits[0] + (vals[0] + Interleave(lits[1..], vals[1..]))
  {
  }

  lemma ResolveCons(ps: seq<Piece>, fields: seq<(string, string)>)
    requires ps != []
    ensures Resolve(ps, fields)[0] == Resolve([ps[0]], fields)[0]
    ensures Resolve(ps, fields)[1..] == Resolve(ps[1..], fields)
  {
    assert [ps[0]][1..] == [];
  }

  /** Resolving one key keeps every slot a placeholder or a value without
      placeholders, when the key's value has none or is never inserted. */
  lemma ResolveKeepsSlots(slots: seq<Piece>, names: seq<string>, keys: seq<string>, k: string, w: string)
    requires forall i :: 0 <= i < |slots| ==> SlotOk(slots[i], names, keys)
    requires k in names ==> NoTokens(w, keys)
    ensures forall i :: 0 <= i < |slots| ==> SlotOk(Resolve(slots, [(k, w)])[i], names, keys)
  {
    var next := Resolve(slots, [(k, w)]);
    ResolveAt(slots, [(k, w)]);
    assert [(k, w)][1..] == [];
    forall i | 0 <= i < |next| ensures SlotOk(next[i], names, keys) {
      assert next[i] == Resolve([slots[i]], [(k, w)])[0];
    }
  }

  /** The fold over a whole field map, for literals and slots. */
  lemma {:induction false} RenderWoven(lits: seq<string>, slots: seq<Piece>, names: seq<string>, keys: seq<string>, fields: seq<(string, string)>)
    requires |lits| == |slots| + 1 && Separators(lits, keys)
    requires forall i :: 0 <= i < |lits| ==> '{' !in lits[i]
    requires forall i :: 0 <= i < |slots| ==> SlotOk(slots[i], names, keys)
    requires forall m :: 0 <= m < |fields| ==> fields[m].0 in keys && BraceFree(fields[m].0)
    requires forall m :: 0 <= m < |fields| && fields[m].0 in names ==> NoTokens(fields[m].1, keys)
    ensures Render(Interleave(lits, SlotTexts(slots)), fields) == Interleave(lits, SlotTexts(Resolve(slots, fields)))
    decreases |fields|
  {
    if fields == [] {
      ResolveNothing(slots);
    } else {
      var (k, w) := fields[0];
      ReplaceWoven(lits, slots, names, keys, k, w);
      ResolveKeepsSlots(slots, names, keys, k, w);
      RenderWoven(lits, Resolve(slots, [(k, w)]), names, keys, fields[1..]);
      ResolveStep(slots, k, w, fields[1..]);
      assert [(k, w)] + fields[1..] == fields;
    }
  }

  /** A template whose literals hold no "{", each literal after a
      placeholder starting with a character found in no placeholder of the
      keys, renders to its literals with the looked-up value of each
      placeholder between them, whenever no inserted value holds a
      placeholder of a key: values may hold "{" and "}". */
  lemma RenderInterleavedValues(lits: seq<string>, names: seq<string>, vals: seq<string>, keys: seq<string>, fields: seq<(string, string)>)
    requires |lits| == |names| + 1 && |vals| == |names|
    requires forall i :: 0 <= i < |lits| ==> '{' !in lits[i]
    requires Separators(lits, keys)
    requires forall i :: 0 <= i < |names| ==> BraceFree(names[i])
    requires forall m :: 0 <= m < |fields| ==> fields[m].0 in keys && BraceFree(fields[m].0)
    requires forall m :: 0 <= m < |fields| && fields[m].0 in names ==> NoTokens(fields[m].1, keys)
    requires forall i :: 0 <= i < |names| ==> Lookup(fields, names[i]) == Some(vals[i])
    ensures Render(Interleave(lits, Tokens(names)), fields) == Interleave(lits, vals)
  {
    var slots := TokSlots(names);
    RenderWoven(lits, slots, names, keys, fields);
    ResolveTokSlots(names, vals, fields);
  }

  /** The slots of a template before rendering: one placeholder per name. */
  function TokSlots(names: seq<string>): (r: seq<Piece>)
    ensures |r| == |names| && SlotTexts(r) == Tokens(names)
    ensures forall i :: 0 <= i < |names| ==> r[i] == Tok(names[i])
  {
    seq(|names|, i requires 0 <= i < |names| => Tok(names[i]))
  }

  lemma ResolveTokSlots(names: seq<string>, vals: seq<string>, fields: seq<(string, string)>)
    requires |vals| == |names|
    requires forall i :: 0 <= i < |names| ==> Lookup(fields, names[i]) == Some(vals[i])
    ensures SlotTexts(Resolve(TokSlots(names), fields)) == vals
  {
    var slots := TokSlots(names);
    ResolveAt(slots, fields);
    var r := Resolve(slots, fields);
    forall i | 0 <= i < |names| ensures PieceText(r[i]) == vals[i] {
      assert r[i] == Resolve([slots[i]], fields)[0];
      assert [slots[i]][1..] == [];
      assert Lookup(fields, names[i]) == Some(vals[i]);
    }
  }
}
