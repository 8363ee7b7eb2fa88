/**
 * scripts/license-check.ts: the SPDX licence-expression evaluator (Annex D of the SPDX
 * Specification 2.3). A cursor parser runs over the tokens; it is proved to read back every
 * printed expression, and exactly where WITH makes it misjudge is settled.
 */
module Spdx {
  import opened Text

  datatype Verdict = Allowed | Review | Denied

  function Rank(v: Verdict): nat {
    match v case Allowed => 0 case Review => 1 case Denied => 2
  }

  /** For AND: the worse of the two. */
  function Worse(a: Verdict, b: Verdict): Verdict {
    if Rank(a) >= Rank(b) then a else b
  }

  /** For OR: the better of the two. */
  function Better(a: Verdict, b: Verdict): Verdict {
    if Rank(a) <= Rank(b) then a else b
  }

  // ----- characters, tokens -----

  /** What `\s` matches. */
  predicate IsSpace(c: char) {
    ('\t' <= c <= '\r') || c == ' ' || c == '\U{A0}' || c == '\U{1680}' ||
    ('\U{2000}' <= c <= '\U{200A}') || c == '\U{2028}' || c == '\U{2029}' ||
    c == '\U{202F}' || c == '\U{205F}' || c == '\U{3000}' || c == '\U{FEFF}'
  }

  predicate IsParen(c: char) {
    c == '(' || c == ')'
  }

  predicate IsWordChar(c: char) {
    !IsSpace(c) && !IsParen(c)
  }

  predicate IsWord(s: string) {
    s != "" && forall c :: c in s ==> IsWordChar(c)
  }

  function UpperChar(c: char): char {
    if 'a' <= c <= 'z' then (c as int - 32) as char else c
  }

  function Upper(s: string): string {
    seq(|s|, i requires 0 <= i < |s| => UpperChar(s[i]))
  }

  function WordLength(s: string): (n: nat)
    ensures n <= |s|
    ensures forall i :: 0 <= i < n ==> IsWordChar(s[i])
    ensures n < |s| ==> !IsWordChar(s[n])
  {
    if s == "" || !IsWordChar(s[0]) then 0 else 1 + WordLength(s[1..])
  }

  /** `text.match(/\(|\)|[^\s()]+/g)`: parentheses one by one, words as long as they go. */
  function Tokenize(text: string): (tokens: seq<string>)
    ensures forall t :: t in tokens ==> t == "(" || t == ")" || IsWord(t)
  {
    if text == "" then []
    else if IsSpace(text[0]) then Tokenize(text[1..])
    else if IsParen(text[0]) then [text[..1]] + Tokenize(text[1..])
    else
      var n := WordLength(text);
      assert forall c :: c in text[..n] ==> IsWordChar(c);
      [text[..n]] + Tokenize(text[n..])
  }

  // ----- the parser, as a function of tokens and cursor -----

  function Left(tokens: seq<string>, pos: nat): nat {
    if pos < |tokens| then |tokens| - pos else 0
  }

  predicate Peeks(tokens: seq<string>, pos: nat, word: string) {
    pos < |tokens| && Upper(tokens[pos]) == word
  }

  /** Verdict and new cursor. The cursor moves even past the end, as `tokens[pos++]` does. */
  function Atom(classify: string -> Verdict, tokens: seq<string>, pos: nat): (r: (Verdict, nat))
    ensures r.1 > pos
    decreases Left(tokens, pos), 0
  {
    if pos >= |tokens| then (Denied, pos + 1)
    else if tokens[pos] == "(" then
      var inner := Or(classify, tokens, pos + 1);
      (inner.0, if inner.1 < |tokens| && tokens[inner.1] == ")" then inner.1 + 1 else inner.1)
    else (classify(tokens[pos]), pos + 1)
  }

  function And(classify: string -> Verdict, tokens: seq<string>, pos: nat): (r: (Verdict, nat))
    ensures r.1 > pos
    decreases Left(tokens, pos), 2
  {
    var first := Atom(classify, tokens, pos);
    AndRest(classify, tokens, first.0, first.1)
  }

  function AndRest(classify: string -> Verdict, tokens: seq<string>, result: Verdict, pos: nat): (r: (Verdict, nat))
    ensures r.1 >= pos
    decreases Left(tokens, pos), 1
  {
    if Peeks(tokens, pos, "AND") then
      var next := Atom(classify, tokens, pos + 1);
      AndRest(classify, tokens, Worse(result, next.0), next.1)
    else (result, pos)
  }

  function Or(classify: string -> Verdict, tokens: seq<string>, pos: nat): (r: (Verdict, nat))
    ensures r.1 > pos
    decreases Left(tokens, pos), 4
  {
    var first := And(classify, tokens, pos);
    OrRest(classify, tokens, first.0, first.1)
  }

  function OrRest(classify: string -> Verdict, tokens: seq<string>, result: Verdict, pos: nat): (r: (Verdict, nat))
    ensures r.1 >= pos
    decreases Left(tokens, pos), 3
  {
    if Peeks(tokens, pos, "OR") then
      var next := And(classify, tokens, pos + 1);
      OrRest(classify, tokens, Better(result, next.0), next.1)
    else (result, pos)
  }

  // ----- the parser as it is written: a shared cursor moved by three methods -----

  class Parser {
    const classify: string -> Verdict
    const tokens: seq<string>
    var pos: nat

    constructor (classify: string -> Verdict, tokens: seq<string>)
      ensures this.classify == classify && this.tokens == tokens && pos == 0
    {
      this.classify := classify;
      this.tokens := tokens;
      pos := 0;
    }

    method ParseAtom() returns (v: Verdict)
      modifies this
      ensures (v, pos) == Atom(classify, tokens, old(pos))
      decreases Left(tokens, pos), 0
    {
      pos := pos + 1;
      if pos > |tokens| {
        return Denied;
      }
      var token := tokens[pos - 1];
      if token == "(" {
        v := ParseOr();
        if pos < |tokens| && tokens[pos] == ")" {
          pos := pos + 1;
        }
        return;
      }
      v := classify(token);
    }

    method ParseAnd() returns (result: Verdict)
      modifies this
      ensures (result, pos) == And(classify, tokens, old(pos))
      decreases Left(tokens, pos), 2
    {
      result := ParseAtom();
      while Peeks(tokens, pos, "AND")
        invariant pos > old(pos)
        invariant AndRest(classify, tokens, result, pos) == And(classify, tokens, old(pos))
        decreases Left(tokens, pos)
      {
        pos := pos + 1;
        var next := ParseAtom();
        result := Worse(result, next);
      }
    }

    method ParseOr() returns (result: Verdict)
      modifies this
      ensures (result, pos) == Or(classify, tokens, old(pos))
      decreases Left(tokens, pos), 4
    {
      result := ParseAnd();
      while Peeks(tokens, pos, "OR")
        invariant pos > old(pos)
        invariant OrRest(classify, tokens, result, pos) == Or(classify, tokens, old(pos))
        decreases Left(tokens, pos)
      {
        pos := pos + 1;
        var next := ParseAnd();
        result := Better(result, next);
      }
    }
  }

  // ----- expressions: trees, their meaning, their printing -----

  /** An SPDX expression. Group is a written pair of parentheses that precedence does not need. */
  datatype Tree =
    | Id(name: string)
    | With(name: string, exception: string)
    | Both(left: Tree, right: Tree)
    | Either(left: Tree, right: Tree)
    | Group(inner: Tree)

  /** What the expression is worth: an exception never makes its licence worse. */
  function Meaning(classify: string -> Verdict, t: Tree): Verdict {
    match t
    case Id(n) => classify(n)
    case With(n, _) => classify(n)
    case Both(l, r) => Worse(Meaning(classify, l), Meaning(classify, r))
    case Either(l, r) => Better(Meaning(classify, l), Meaning(classify, r))
    case Group(e) => Meaning(classify, e)
  }

  predicate IsName(s: string) {
    IsWord(s) && Upper(s) != "AND" && Upper(s) != "OR"
  }

  predicate WellFormed(t: Tree) {
    match t
    case Id(n) => IsName(n)
    case With(n, e) => IsName(n) && IsName(e)
    case Both(l, r) => WellFormed(l) && WellFormed(r)
    case Either(l, r) => WellFormed(l) && WellFormed(r)
    case Group(e) => WellFormed(e)
  }

  predicate WithFree(t: Tree) {
    match t
    case Id(_) => true
    case With(_, _) => false
    case Both(l, r) => WithFree(l) && WithFree(r)
    case Either(l, r) => WithFree(l) && WithFree(r)
    case Group(e) => WithFree(e)
  }

  /** Tokens of the printed expression; AND binds tighter, so only an OR under an AND is wrapped. */
  function Print(t: Tree): (tokens: seq<string>)
    ensures tokens != []
    decreases t, 0
  {
    match t
    case Id(n) => [n]
    case With(n, e) => [n, "WITH", e]
    case Both(l, r) => PrintFactor(l) + ["AND"] + PrintFactor(r)
    case Either(l, r) => Print(l) + ["OR"] + Print(r)
    case Group(e) => ["("] + Print(e) + [")"]
  }

  function PrintFactor(t: Tree): (tokens: seq<string>)
    ensures tokens != []
    decreases t, 1
  {
    if t.Either? then ["("] + Print(t) + [")"] else Print(t)
  }

  function Infix(a: string, op: string, b: string): string {
    a + " " + op + " " + b
  }

  function Render(t: Tree): string
    decreases t, 0
  {
    match t
    case Id(n) => n
    case With(n, e) => Infix(n, "WITH", e)
    case Both(l, r) => Infix(RenderFactor(l), "AND", RenderFactor(r))
    case Either(l, r) => Infix(Render(l), "OR", Render(r))
    case Group(e) => "(" + Render(e) + ")"
  }

  function RenderFactor(t: Tree): string
    decreases t, 1
  {
    if t.Either? then "(" + Render(t) + ")" else Render(t)
  }

  // ----- the verdict of an expression is its best choice -----

  /** The expression's alternatives: one must be taken, and all its licences accepted. */
  ghost function Alternatives(t: Tree): set<set<string>> {
    match t
    case Id(n) => {{n}}
    case With(n, _) => {{n}}
    case Both(l, r) => set a, b | a in Alternatives(l) && b in Alternatives(r) :: a + b
    case Either(l, r) => Alternatives(l) + Alternatives(r)
    case Group(e) => Alternatives(e)
  }

  ghost predicate AllWithin(classify: string -> Verdict, names: set<string>, level: nat) {
    forall n :: n in names ==> Rank(classify(n)) <= level
  }

  /** At every level: the verdict is that good just when some alternative is, in all its licences. */
  lemma {:induction false} VerdictIsBestAlternative(classify: string -> Verdict, t: Tree, level: nat)
    ensures Rank(Meaning(classify, t)) <= level
            <==> exists a :: a in Alternatives(t) && AllWithin(classify, a, level)
  {
    match t
    case Id(n) =>
      assert {n} in Alternatives(t);
      assert AllWithin(classify, {n}, level) <==> Rank(classify(n)) <= level;
    case With(n, _) =>
      assert {n} in Alternatives(t);
      assert AllWithin(classify, {n}, level) <==> Rank(classify(n)) <= level;
    case Both(l, r) =>
      VerdictIsBestAlternative(classify, l, level);
      VerdictIsBestAlternative(classify, r, level);
      if a, b :| a in Alternatives(l) && AllWithin(classify, a, level)
                 && b in Alternatives(r) && AllWithin(classify, b, level) {
        assert a + b in Alternatives(t) && AllWithin(classify, a + b, level);
      }
      if c :| c in Alternatives(t) && AllWithin(classify, c, level) {
        var a, b :| a in Alternatives(l) && b in Alternatives(r) && c == a + b;
        assert AllWithin(classify, a, level) && AllWithin(classify, b, level);
      }
    case Either(l, r) =>
      VerdictIsBestAlternative(classify, l, level);
      VerdictIsBestAlternative(classify, r, level);
    case Group(e) =>
      VerdictIsBestAlternative(classify, e, level);
  }

  function Names(t: Tree): set<string> {
    match t
    case Id(n) => {n}
    case With(n, _) => {n}
    case Both(l, r) => Names(l) + Names(r)
    case Either(l, r) => Names(l) + Names(r)
    case Group(e) => Names(e)
  }

  /** Approving a licence never makes an expression worse. */
  lemma {:induction false} MeaningIsMonotone(c: string -> Verdict, d: string -> Verdict, t: Tree)
    requires forall n :: n in Names(t) ==> Rank(c(n)) <= Rank(d(n))
    ensures Rank(Meaning(c, t)) <= Rank(Meaning(d, t))
  {
    match t
    case Id(_) =>
    case With(_, _) =>
    case Both(l, r) => MeaningIsMonotone(c, d, l); MeaningIsMonotone(c, d, r);
    case Either(l, r) => MeaningIsMonotone(c, d, l); MeaningIsMonotone(c, d, r);
    case Group(e) => MeaningIsMonotone(c, d, e);
  }

  // ----- reading back what is printed -----

  ghost predicate Has(tokens: seq<string>, pos: nat, part: seq<string>) {
    pos + |part| <= |tokens| && tokens[pos..pos + |part|] == part
  }

  lemma HasSplit(tokens: seq<string>, pos: nat, a: seq<string>, b: seq<string>)
    ensures Has(tokens, pos, a + b) <==> Has(tokens, pos, a) && Has(tokens, pos + |a|, b)
  {
    if Has(tokens, pos, a + b) {
      assert tokens[pos..pos + |a|] == tokens[pos..pos + |a + b|][..|a|] == a;
      assert tokens[pos + |a|..pos + |a| + |b|] == tokens[pos..pos + |a + b|][|a|..] == b;
    }
    if Has(tokens, pos, a) && Has(tokens, pos + |a|, b) {
      assert tokens[pos..pos + |a + b|]
          == tokens[pos..pos + |a|] + tokens[pos + |a|..pos + |a| + |b|];
    }
  }

  lemma HasOne(tokens: seq<string>, pos: nat, word: string)
    requires Has(tokens, pos, [word])
    ensures pos < |tokens| && tokens[pos] == word
  {
    assert tokens[pos..pos + 1][0] == tokens[pos];
  }

  lemma HasInfix(tokens: seq<string>, pos: nat, a: seq<string>, word: string, b: seq<string>)
    requires Has(tokens, pos, a + [word] + b)
    ensures Has(tokens, pos, a)
    ensures pos + |a| < |tokens| && tokens[pos + |a|] == word
    ensures Has(tokens, pos + |a| + 1, b)
  {
    HasSplit(tokens, pos, a + [word], b);
    HasSplit(tokens, pos, a, [word]);
    HasOne(tokens, pos + |a|, word);
  }

  lemma Keywords()
    ensures Upper("AND") == "AND" && Upper("OR") == "OR" && Upper("WITH") == "WITH"
    ensures Upper(")") == ")" && Upper("(") == "("
  {}

  lemma WordIsNoParen(s: string)
    requires IsWord(s)
    ensures s != "(" && s != ")"
  {
    assert s[0] in s;
  }

  lemma WorseAssociates(a: Verdict, b: Verdict, c: Verdict)
    ensures Worse(Worse(a, b), c) == Worse(a, Worse(b, c))
    ensures Better(Better(a, b), c) == Better(a, Better(b, c))
  {}

  /** An atom in parentheses or a bare name reads as one atom. */
  lemma {:induction false} ReadAtom(c: string -> Verdict, t: Tree, tokens: seq<string>, pos: nat)
    requires WellFormed(t) && WithFree(t) && !t.Both? && Has(tokens, pos, PrintFactor(t))
    ensures Atom(c, tokens, pos) == (Meaning(c, t), pos + |PrintFactor(t)|)
    decreases t, if t.Either? then 2 else 1
  {
    FactorParts(t);
    hide Has;
    match t
    case Id(n) =>
      HasOne(tokens, pos, n);
      WordIsNoParen(n);
    case Either(l, r) =>
      ReadBracketed(c, t, Print(t), tokens, pos);
    case Group(e) =>
      ReadBracketed(c, e, Print(e), tokens, pos);
  }

  lemma FactorParts(t: Tree)
    ensures t.Id? ==> PrintFactor(t) == Print(t) == [t.name]
    ensures t.Either? ==> PrintFactor(t) == ["("] + Print(t) + [")"]
    ensures t.Group? ==> PrintFactor(t) == Print(t) == ["("] + Print(t.inner) + [")"]
  {}

  lemma {:induction false} ReadBracketed(c: string -> Verdict, t: Tree, inner: seq<string>, tokens: seq<string>,
                                         pos: nat)
    requires WellFormed(t) && WithFree(t) && inner == Print(t)
    requires Has(tokens, pos, ["("] + inner + [")"])
    ensures Atom(c, tokens, pos) == (Meaning(c, t), pos + |inner| + 2)
    decreases t, if t.Either? then 1 else 4
  {
    hide Has, Print, WellFormed, WithFree, Meaning;
    assert ["("] + inner + [")"] == [] + ["("] + (inner + [")"]);
    HasInfix(tokens, pos, [], "(", inner + [")"]);
    assert inner + [")"] + [] == inner + [")"];
    HasInfix(tokens, pos + 1, inner, ")", []);
    Keywords();
    ReadOr(c, t, tokens, pos + 1);
  }

  lemma BothParts(c: string -> Verdict, t: Tree)
    requires t.Both?
    ensures PrintFactor(t) == Print(t) == PrintFactor(t.left) + ["AND"] + PrintFactor(t.right)
    ensures Meaning(c, t) == Worse(Meaning(c, t.left), Meaning(c, t.right))
  {}

  lemma EitherParts(c: string -> Verdict, t: Tree)
    requires t.Either?
    ensures Print(t) == Print(t.left) + ["OR"] + Print(t.right)
    ensures Meaning(c, t) == Better(Meaning(c, t.left), Meaning(c, t.right))
  {}

  lemma FactorIsPrint(t: Tree)
    requires !t.Either?
    ensures PrintFactor(t) == Print(t)
  {}

  lemma TakesAnd(c: string -> Verdict, tokens: seq<string>, result: Verdict, pos: nat)
    requires pos < |tokens| && tokens[pos] == "AND"
    ensures var next := Atom(c, tokens, pos + 1);
            AndRest(c, tokens, result, pos) == AndRest(c, tokens, Worse(result, next.0), next.1)
  {}

  lemma TakesOr(c: string -> Verdict, tokens: seq<string>, result: Verdict, pos: nat)
    requires pos < |tokens| && tokens[pos] == "OR"
    ensures var next := And(c, tokens, pos + 1);
            OrRest(c, tokens, result, pos) == OrRest(c, tokens, Better(result, next.0), next.1)
  {}

  lemma AndEnds(c: string -> Verdict, tokens: seq<string>, result: Verdict, pos: nat)
    requires !Peeks(tokens, pos, "AND")
    ensures AndRest(c, tokens, result, pos) == (result, pos)
  {}

  lemma NoAndHere(tokens: seq<string>, pos: nat)
    requires pos < |tokens| && tokens[pos] == "OR"
    ensures !Peeks(tokens, pos, "AND")
  {
    Keywords();
  }

  lemma {:induction false} ReadAnd(c: string -> Verdict, t: Tree, tokens: seq<string>, pos: nat)
    requires WellFormed(t) && WithFree(t) && Has(tokens, pos, PrintFactor(t))
    ensures And(c, tokens, pos) == AndRest(c, tokens, Meaning(c, t), pos + |PrintFactor(t)|)
    decreases t, if t.Either? then 3 else 2
  {
    hide Print, PrintFactor, Meaning, Has, Worse, AndRest, Atom;
    if t.Both? {
      var a, b := PrintFactor(t.left), PrintFactor(t.right);
      BothParts(c, t);
      HasInfix(tokens, pos, a, "AND", b);
      ReadAnd(c, t.left, tokens, pos);
      ReadAndRest(c, t.right, Meaning(c, t.left), tokens, pos + |a|);
    } else {
      ReadAtom(c, t, tokens, pos);
    }
  }

  lemma {:induction false} ReadAndRest(c: string -> Verdict, t: Tree, result: Verdict, tokens: seq<string>, pos: nat)
    requires WellFormed(t) && WithFree(t)
    requires pos < |tokens| && tokens[pos] == "AND" && Has(tokens, pos + 1, PrintFactor(t))
    ensures AndRest(c, tokens, result, pos)
         == AndRest(c, tokens, Worse(result, Meaning(c, t)), pos + 1 + |PrintFactor(t)|)
    decreases t, if t.Either? then 3 else 2
  {
    hide Print, PrintFactor, Meaning, Has, Worse, AndRest, Atom;
    if t.Both? {
      var a, b := PrintFactor(t.left), PrintFactor(t.right);
      BothParts(c, t);
      HasInfix(tokens, pos + 1, a, "AND", b);
      WorseAssociates(result, Meaning(c, t.left), Meaning(c, t.right));
      ReadAndRest(c, t.left, result, tokens, pos);
      ReadAndRest(c, t.right, Worse(result, Meaning(c, t.left)), tokens, pos + 1 + |a|);
    } else {
      ReadAtom(c, t, tokens, pos + 1);
      TakesAnd(c, tokens, result, pos);
    }
  }

  lemma {:induction false} ReadOr(c: string -> Verdict, t: Tree, tokens: seq<string>, pos: nat)
    requires WellFormed(t) && WithFree(t) && Has(tokens, pos, Print(t))
    requires !Peeks(tokens, pos + |Print(t)|, "AND")
    ensures Or(c, tokens, pos) == OrRest(c, tokens, Meaning(c, t), pos + |Print(t)|)
    decreases t, if t.Either? then 0 else 3
  {
    hide Print, PrintFactor, Meaning, Has, Better, OrRest, AndRest, And, Peeks;
    if t.Either? {
      var a, b := Print(t.left), Print(t.right);
      EitherParts(c, t);
      HasInfix(tokens, pos, a, "OR", b);
      NoAndHere(tokens, pos + |a|);
      ReadOr(c, t.left, tokens, pos);
      ReadOrRest(c, t.right, Meaning(c, t.left), tokens, pos + |a|);
    } else {
      FactorIsPrint(t);
      ReadAnd(c, t, tokens, pos);
      AndEnds(c, tokens, Meaning(c, t), pos + |Print(t)|);
    }
  }

  lemma {:induction false} ReadOrRest(c: string -> Verdict, t: Tree, result: Verdict, tokens: seq<string>, pos: nat)
    requires WellFormed(t) && WithFree(t)
    requires pos < |tokens| && tokens[pos] == "OR" && Has(tokens, pos + 1, Print(t))
    requires !Peeks(tokens, pos + 1 + |Print(t)|, "AND")
    ensures OrRest(c, tokens, result, pos)
         == OrRest(c, tokens, Better(result, Meaning(c, t)), pos + 1 + |Print(t)|)
    decreases t, if t.Either? then 0 else 3
  {
    hide Print, PrintFactor, Meaning, Has, Better, OrRest, AndRest, And, Peeks;
    if t.Either? {
      var a, b := Print(t.left), Print(t.right);
      EitherParts(c, t);
      HasInfix(tokens, pos + 1, a, "OR", b);
      NoAndHere(tokens, pos + 1 + |a|);
      WorseAssociates(result, Meaning(c, t.left), Meaning(c, t.right));
      ReadOrRest(c, t.left, result, tokens, pos);
      ReadOrRest(c, t.right, Better(result, Meaning(c, t.left)), tokens, pos + 1 + |a|);
    } else {
      FactorIsPrint(t);
      ReadAnd(c, t, tokens, pos + 1);
      AndEnds(c, tokens, Meaning(c, t), pos + 1 + |Print(t)|);
      TakesOr(c, tokens, result, pos);
    }
  }

  /** Every token is read and the verdict is the expression's; what follows it is not looked at. */
  lemma ParseUndoesPrint(c: string -> Verdict, t: Tree, tail: seq<string>)
    requires WellFormed(t) && WithFree(t)
    requires tail == [] || (Upper(tail[0]) != "AND" && Upper(tail[0]) != "OR")
    ensures Or(c, Print(t) + tail, 0) == (Meaning(c, t), |Print(t)|)
  {
    var tokens := Print(t) + tail;
    assert tokens[0..0 + |Print(t)|] == Print(t);
    assert |Print(t)| < |tokens| ==> tokens[|Print(t)|] == tail[0];
    ReadOr(c, t, tokens, 0);
  }

  // ----- WITH -----

  /** The verdict once reading stops at the first WITH. */
  function Cut(c: string -> Verdict, t: Tree): Verdict {
    match t
    case Id(n) => c(n)
    case With(n, _) => c(n)
    case Both(l, r) => if WithFree(l) then Worse(Meaning(c, l), Cut(c, r)) else Cut(c, l)
    case Either(l, r) => if WithFree(l) then Better(Meaning(c, l), Cut(c, r)) else Cut(c, l)
    case Group(e) => Cut(c, e)
  }

  ghost predicate StopsAt(tokens: seq<string>, q: nat) {
    q < |tokens| && tokens[q] == "WITH"
  }

  lemma StopEndsLoops(c: string -> Verdict, tokens: seq<string>, v: Verdict, q: nat)
    requires StopsAt(tokens, q)
    ensures AndRest(c, tokens, v, q) == (v, q) && OrRest(c, tokens, v, q) == (v, q)
    ensures tokens[q] != ")"
  {
    Keywords();
  }

  lemma {:induction false} StopAtom(c: string -> Verdict, t: Tree, tokens: seq<string>, pos: nat) returns (q: nat)
    requires WellFormed(t) && !WithFree(t) && !t.Both? && Has(tokens, pos, PrintFactor(t))
    ensures Atom(c, tokens, pos) == (Cut(c, t), q) && StopsAt(tokens, q)
    decreases t, if t.Either? then 2 else 1
  {
    match t
    case With(n, e) =>
      assert PrintFactor(t) == Print(t) == [] + [n] + ["WITH", e];
      assert ["WITH", e] == [] + ["WITH"] + [e];
      HasInfix(tokens, pos, [], n, ["WITH", e]);
      HasInfix(tokens, pos + 1, [], "WITH", [e]);
      WordIsNoParen(n);
      q := pos + 1;
    case Either(_, _) =>
      q := StopBracketed(c, t, Print(t), tokens, pos);
    case Group(e) =>
      assert PrintFactor(t) == Print(t) == ["("] + Print(e) + [")"];
      q := StopBracketed(c, e, Print(e), tokens, pos);
  }

  lemma {:induction false} StopBracketed(c: string -> Verdict, t: Tree, inner: seq<string>, tokens: seq<string>,
                                         pos: nat)
    returns (q: nat)
    requires WellFormed(t) && !WithFree(t) && inner == Print(t)
    requires Has(tokens, pos, ["("] + inner + [")"])
    ensures Atom(c, tokens, pos) == (Cut(c, t), q) && StopsAt(tokens, q)
    decreases t, if t.Either? then 1 else 4
  {
    assert ["("] + inner + [")"] == [] + ["("] + (inner + [")"]);
    HasInfix(tokens, pos, [], "(", inner + [")"]);
    assert inner + [")"] + [] == inner + [")"];
    HasInfix(tokens, pos + 1, inner, ")", []);
    q := StopOr(c, t, tokens, pos + 1);
    StopEndsLoops(c, tokens, Cut(c, t), q);
  }

  lemma {:induction false} StopAnd(c: string -> Verdict, t: Tree, tokens: seq<string>, pos: nat) returns (q: nat)
    requires WellFormed(t) && !WithFree(t) && Has(tokens, pos, PrintFactor(t))
    ensures And(c, tokens, pos) == (Cut(c, t), q) && StopsAt(tokens, q)
    decreases t, if t.Either? then 3 else 2
  {
    if t.Both? {
      var a, b := PrintFactor(t.left), PrintFactor(t.right);
      assert PrintFactor(t) == a + ["AND"] + b;
      HasInfix(tokens, pos, a, "AND", b);
      hide And, AndRest, Has, PrintFactor, Print;
      if WithFree(t.left) {
        ReadAnd(c, t.left, tokens, pos);
        q := StopAndRest(c, t.right, Meaning(c, t.left), tokens, pos + |a|);
      } else {
        q := StopAnd(c, t.left, tokens, pos);
      }
    } else {
      q := StopAtom(c, t, tokens, pos);
      StopEndsLoops(c, tokens, Cut(c, t), q);
    }
  }

  lemma {:induction false} StopAndRest(c: string -> Verdict, t: Tree, result: Verdict, tokens: seq<string>, pos: nat)
    returns (q: nat)
    requires WellFormed(t) && !WithFree(t)
    requires pos < |tokens| && tokens[pos] == "AND" && Has(tokens, pos + 1, PrintFactor(t))
    ensures AndRest(c, tokens, result, pos) == (Worse(result, Cut(c, t)), q) && StopsAt(tokens, q)
    decreases t, if t.Either? then 3 else 2
  {
    hide Print, PrintFactor, Meaning, Has, Worse, AndRest, Atom, StopsAt;
    if t.Both? {
      var a, b := PrintFactor(t.left), PrintFactor(t.right);
      BothParts(c, t);
      HasInfix(tokens, pos + 1, a, "AND", b);
      WorseAssociates(result, Meaning(c, t.left), Cut(c, t.right));
      if WithFree(t.left) {
        ReadAndRest(c, t.left, result, tokens, pos);
        q := StopAndRest(c, t.right, Worse(result, Meaning(c, t.left)), tokens, pos + 1 + |a|);
      } else {
        q := StopAndRest(c, t.left, result, tokens, pos);
      }
    } else {
      q := StopAtom(c, t, tokens, pos + 1);
      TakesAnd(c, tokens, result, pos);
      StopEndsLoops(c, tokens, Worse(result, Cut(c, t)), q);
    }
  }

  lemma {:induction false} StopOr(c: string -> Verdict, t: Tree, tokens: seq<string>, pos: nat) returns (q: nat)
    requires WellFormed(t) && !WithFree(t) && Has(tokens, pos, Print(t))
    ensures Or(c, tokens, pos) == (Cut(c, t), q) && StopsAt(tokens, q)
    decreases t, if t.Either? then 0 else 3
  {
    if t.Either? {
      var a, b := Print(t.left), Print(t.right);
      assert Print(t) == a + ["OR"] + b;
      HasInfix(tokens, pos, a, "OR", b);
      Keywords();
      hide Or, OrRest, Has, Print;
      if WithFree(t.left) {
        ReadOr(c, t.left, tokens, pos);
        q := StopOrRest(c, t.right, Meaning(c, t.left), tokens, pos + |a|);
      } else {
        q := StopOr(c, t.left, tokens, pos);
      }
    } else {
      q := StopAnd(c, t, tokens, pos);
      StopEndsLoops(c, tokens, Cut(c, t), q);
    }
  }

  lemma {:induction false} StopOrRest(c: string -> Verdict, t: Tree, result: Verdict, tokens: seq<string>, pos: nat)
    returns (q: nat)
    requires WellFormed(t) && !WithFree(t)
    requires pos < |tokens| && tokens[pos] == "OR" && Has(tokens, pos + 1, Print(t))
    ensures OrRest(c, tokens, result, pos) == (Better(result, Cut(c, t)), q) && StopsAt(tokens, q)
    decreases t, if t.Either? then 0 else 3
  {
    hide Print, PrintFactor, Meaning, Has, Better, OrRest, And, StopsAt, Peeks;
    if t.Either? {
      var a, b := Print(t.left), Print(t.right);
      EitherParts(c, t);
      HasInfix(tokens, pos + 1, a, "OR", b);
      WorseAssociates(result, Meaning(c, t.left), Cut(c, t.right));
      NoAndHere(tokens, pos + 1 + |a|);
      if WithFree(t.left) {
        ReadOrRest(c, t.left, result, tokens, pos);
        q := StopOrRest(c, t.right, Better(result, Meaning(c, t.left)), tokens, pos + 1 + |a|);
      } else {
        q := StopOrRest(c, t.left, result, tokens, pos);
      }
    } else {
      FactorIsPrint(t);
      q := StopAnd(c, t, tokens, pos + 1);
      TakesOr(c, tokens, result, pos);
      StopEndsLoops(c, tokens, Better(result, Cut(c, t)), q);
    }
  }

  /** The first WITH ends the reading: the rest, closing parentheses included, goes unread. */
  lemma WithCutsTheExpression(c: string -> Verdict, t: Tree)
    requires WellFormed(t)
    ensures Or(c, Print(t), 0).0 == if WithFree(t) then Meaning(c, t) else Cut(c, t)
  {
    assert Print(t)[0..0 + |Print(t)|] == Print(t) && Print(t) + [] == Print(t);
    if WithFree(t) {
      ParseUndoesPrint(c, t, []);
    } else {
      var _ := StopOr(c, t, Print(t), 0);
    }
  }

  /** Some WITH is followed by a further licence. */
  predicate WithBeforeLast(t: Tree) {
    match t
    case Id(_) => false
    case With(_, _) => false
    case Both(l, r) => !WithFree(l) || WithBeforeLast(r)
    case Either(l, r) => !WithFree(l) || WithBeforeLast(r)
    case Group(e) => WithBeforeLast(e)
  }

  /** No licence is named twice. */
  predicate NamesOnce(t: Tree) {
    match t
    case Id(_) => true
    case With(_, _) => true
    case Both(l, r) => NamesOnce(l) && NamesOnce(r) && Names(l) !! Names(r)
    case Either(l, r) => NamesOnce(l) && NamesOnce(r) && Names(l) !! Names(r)
    case Group(e) => NamesOnce(e)
  }

  /** How many licences an expression names, one by one. */
  function Leaves(t: Tree): nat {
    match t
    case Id(_) => 1
    case With(_, _) => 1
    case Both(l, r) => Leaves(l) + Leaves(r)
    case Either(l, r) => Leaves(l) + Leaves(r)
    case Group(e) => Leaves(e)
  }

  /** Named once is: as many different names as there are places that name one. */
  lemma {:induction false} NamesOnceIff(t: Tree)
    ensures |Names(t)| <= Leaves(t) && (NamesOnce(t) <==> |Names(t)| == Leaves(t))
  {
    match t
    case Id(n) => assert |{n}| == 1;
    case With(n, _) => assert |{n}| == 1;
    case Both(l, r) =>
      NamesOnceIff(l);
      NamesOnceIff(r);
      UnionSize(Names(l), Names(r));
    case Either(l, r) =>
      NamesOnceIff(l);
      NamesOnceIff(r);
      UnionSize(Names(l), Names(r));
    case Group(e) => NamesOnceIff(e);
  }

  lemma UnionSize(a: set<string>, b: set<string>)
    ensures |a + b| <= |a| + |b| && (|a + b| == |a| + |b| <==> a !! b)
  {
    assert a + b == a + (b - a) && a !! (b - a) && b == (b - a) + (a * b) && (b - a) !! (a * b);
    assert |a + b| == |a| + |b - a| && |b| == |b - a| + |a * b|;
    assert a !! b <==> a * b == {};
  }

  lemma {:induction false} LateWithIsHarmless(c: string -> Verdict, t: Tree)
    requires !WithBeforeLast(t)
    ensures Cut(c, t) == Meaning(c, t)
  {
    match t
    case Id(_) =>
    case With(_, _) =>
    case Both(l, r) => LateWithIsHarmless(c, r);
    case Either(l, r) => LateWithIsHarmless(c, r);
    case Group(e) => LateWithIsHarmless(c, e);
  }

  lemma {:induction false} OnlyNamesMatter(c: string -> Verdict, d: string -> Verdict, t: Tree)
    requires forall n :: n in Names(t) ==> c(n) == d(n)
    ensures Meaning(c, t) == Meaning(d, t) && Cut(c, t) == Cut(d, t)
  {
    match t
    case Id(_) =>
    case With(_, _) =>
    case Both(l, r) => OnlyNamesMatter(c, d, l); OnlyNamesMatter(c, d, r);
    case Either(l, r) => OnlyNamesMatter(c, d, l); OnlyNamesMatter(c, d, r);
    case Group(e) => OnlyNamesMatter(c, d, e);
  }

  function Always(v: Verdict): string -> Verdict {
    _ => v
  }

  lemma {:induction false} UniformMeaning(t: Tree, v: Verdict)
    ensures Meaning(Always(v), t) == v && Cut(Always(v), t) == v
  {
    match t
    case Id(_) =>
    case With(_, _) =>
    case Both(l, r) => UniformMeaning(l, v); UniformMeaning(r, v);
    case Either(l, r) => UniformMeaning(l, v); UniformMeaning(r, v);
    case Group(e) => UniformMeaning(e, v);
  }

  function Join(c: string -> Verdict, names: set<string>, d: string -> Verdict): string -> Verdict {
    n => if n in names then c(n) else d(n)
  }

  lemma JoinAgrees(c: string -> Verdict, d: string -> Verdict, l: Tree, r: Tree)
    requires Names(l) !! Names(r)
    ensures var j := Join(c, Names(l), d);
            Meaning(j, l) == Meaning(c, l) && Cut(j, l) == Cut(c, l) &&
            Meaning(j, r) == Meaning(d, r) && Cut(j, r) == Cut(d, r)
  {
    OnlyNamesMatter(Join(c, Names(l), d), c, l);
    OnlyNamesMatter(Join(c, Names(l), d), d, r);
  }

  lemma {:induction false} EarlyWithIsWith(t: Tree)
    requires WithBeforeLast(t)
    ensures !WithFree(t)
  {
    match t
    case Both(l, r) => if WithFree(l) { EarlyWithIsWith(r); }
    case Either(l, r) => if WithFree(l) { EarlyWithIsWith(r); }
    case Group(e) => EarlyWithIsWith(e);
  }

  /** A WITH with a licence after it is misjudged under some approval of the licences. */
  lemma {:induction false} EarlyWithMisjudges(t: Tree) returns (c: string -> Verdict)
    requires NamesOnce(t) && WithBeforeLast(t)
    ensures Cut(c, t) != Meaning(c, t)
    decreases t, 1
  {
    match t
    case Group(e) =>
      c := EarlyWithMisjudges(e);
    case Both(l, r) =>
      c := EarlyWithUnder(t, Allowed, Denied);
    case Either(l, r) =>
      c := EarlyWithUnder(t, Denied, Allowed);
  }

  /** `neutral` is the verdict the operator ignores, `other` the one it takes over. */
  lemma {:induction false} EarlyWithUnder(t: Tree, neutral: Verdict, other: Verdict) returns (c: string -> Verdict)
    requires NamesOnce(t) && WithBeforeLast(t)
    requires (t.Both? && neutral == Allowed && other == Denied)
             || (t.Either? && neutral == Denied && other == Allowed)
    ensures Cut(c, t) != Meaning(c, t)
    decreases t, 0
  {
    var l, r := t.left, t.right;
    var dl, dr := Always(neutral), Always(neutral);
    if WithBeforeLast(l) {
      EarlyWithIsWith(l);
      dl := EarlyWithMisjudges(l);
      UniformMeaning(r, neutral);
    } else if !WithFree(l) {
      LateWithIsHarmless(dl, l);
      UniformMeaning(l, neutral);
      dr := Always(other);
      UniformMeaning(r, other);
    } else {
      dr := EarlyWithMisjudges(r);
      UniformMeaning(l, neutral);
    }
    c := Join(dl, Names(l), dr);
    JoinAgrees(dl, dr, l, r);
  }

  /**
   * Exactly which expressions are judged right whatever licences are approved: those with no
   * licence after a WITH.
   */
  lemma JudgedRightIffNoEarlyWith(t: Tree)
    requires WellFormed(t) && NamesOnce(t)
    ensures (forall c: string -> Verdict :: Or(c, Print(t), 0).0 == Meaning(c, t))
            <==> !WithBeforeLast(t)
  {
    if WithBeforeLast(t) {
      var c := EarlyWithMisjudges(t);
      EarlyWithIsWith(t);
      WithCutsTheExpression(c, t);
      assert Or(c, Print(t), 0).0 != Meaning(c, t);
    } else {
      forall c: string -> Verdict ensures Or(c, Print(t), 0).0 == Meaning(c, t) {
        WithCutsTheExpression(c, t);
        LateWithIsHarmless(c, t);
      }
    }
  }

  // ----- whatever the names: two expressions compared by their alternatives -----

  /** Every alternative of `t` asks at least what some alternative of `u` does. */
  ghost predicate NoEasier(t: Tree, u: Tree) {
    forall a :: a in Alternatives(t) ==> exists b :: b in Alternatives(u) && b <= a
  }

  /** Approves just these names. */
  function Only(names: set<string>): string -> Verdict {
    n => if n in names then Allowed else Denied
  }

  lemma NoEasierIsNoBetter(c: string -> Verdict, t: Tree, u: Tree)
    requires NoEasier(t, u)
    ensures Rank(Meaning(c, u)) <= Rank(Meaning(c, t))
  {
    var level := Rank(Meaning(c, t));
    VerdictIsBestAlternative(c, t, level);
    VerdictIsBestAlternative(c, u, level);
    var a :| a in Alternatives(t) && AllWithin(c, a, level);
    var b :| b in Alternatives(u) && b <= a;
    assert AllWithin(c, b, level);
  }

  lemma EasierIsSeen(t: Tree, u: Tree, a: set<string>)
    requires a in Alternatives(t) && forall b :: b in Alternatives(u) ==> !(b <= a)
    ensures Meaning(Only(a), t) == Allowed != Meaning(Only(a), u)
  {
    VerdictIsBestAlternative(Only(a), t, 0);
    VerdictIsBestAlternative(Only(a), u, 0);
    assert AllWithin(Only(a), a, 0);
    forall b | b in Alternatives(u) ensures !AllWithin(Only(a), b, 0) {
      var n :| n in b && n !in a;
      assert Rank(Only(a)(n)) > 0;
    }
  }

  /** Two expressions mean the same under every approval exactly if neither has an easier alternative. */
  lemma SameMeaningIff(t: Tree, u: Tree)
    ensures (forall c: string -> Verdict :: Meaning(c, t) == Meaning(c, u)) <==> NoEasier(t, u) && NoEasier(u, t)
  {
    hide Alternatives, Meaning, Only;
    if NoEasier(t, u) && NoEasier(u, t) {
      forall c: string -> Verdict ensures Meaning(c, t) == Meaning(c, u) {
        NoEasierIsNoBetter(c, t, u);
        NoEasierIsNoBetter(c, u, t);
      }
    } else if !NoEasier(t, u) {
      var a :| a in Alternatives(t) && forall b :: b in Alternatives(u) ==> !(b <= a);
      EasierIsSeen(t, u, a);
    } else {
      var a :| a in Alternatives(u) && forall b :: b in Alternatives(t) ==> !(b <= a);
      EasierIsSeen(u, t, a);
    }
  }

  /** The expression as it is read: no further than the first WITH. */
  function CutTree(t: Tree): Tree {
    match t
    case Id(n) => t
    case With(n, _) => Id(n)
    case Both(l, r) => if WithFree(l) then Both(l, CutTree(r)) else CutTree(l)
    case Either(l, r) => if WithFree(l) then Either(l, CutTree(r)) else CutTree(l)
    case Group(e) => CutTree(e)
  }

  lemma {:induction false} CutTreeMeansCut(c: string -> Verdict, t: Tree)
    ensures Meaning(c, CutTree(t)) == Cut(c, t)
    ensures WithFree(t) ==> Cut(c, t) == Meaning(c, t)
  {
    match t
    case Both(l, r) => CutTreeMeansCut(c, l); CutTreeMeansCut(c, r);
    case Either(l, r) => CutTreeMeansCut(c, l); CutTreeMeansCut(c, r);
    case Group(e) => CutTreeMeansCut(c, e);
    case _ =>
  }

  /**
   * For every expression, names repeated or not: it is judged right whatever licences are approved exactly
   * if what is read of it has the same alternatives, up to those that ask more than another.
   */
  lemma JudgedRightIff(t: Tree)
    requires WellFormed(t)
    ensures (forall c: string -> Verdict :: Or(c, Print(t), 0).0 == Meaning(c, t))
            <==> NoEasier(t, CutTree(t)) && NoEasier(CutTree(t), t)
  {
    hide Or, Print, Meaning, NoEasier, Cut, CutTree, WithFree;
    SameMeaningIff(t, CutTree(t));
    forall c: string -> Verdict ensures Or(c, Print(t), 0).0 == Meaning(c, CutTree(t)) {
      WithCutsTheExpression(c, t);
      CutTreeMeansCut(c, t);
    }
  }

  /**
   * What a gate owes: it never calls an expression better than it is, whatever licences are approved, exactly
   * if each alternative of what is read asks at least as much as one of the expression itself.
   */
  lemma NeverTooGoodIff(t: Tree)
    requires WellFormed(t)
    ensures (forall c: string -> Verdict :: Rank(Meaning(c, t)) <= Rank(Or(c, Print(t), 0).0))
            <==> NoEasier(CutTree(t), t)
  {
    hide Or, Print, Meaning, Alternatives, Only, Cut, CutTree, WithFree;
    forall c: string -> Verdict ensures Or(c, Print(t), 0).0 == Meaning(c, CutTree(t)) {
      WithCutsTheExpression(c, t);
      CutTreeMeansCut(c, t);
    }
    if NoEasier(CutTree(t), t) {
      forall c: string -> Verdict ensures Rank(Meaning(c, t)) <= Rank(Or(c, Print(t), 0).0) {
        NoEasierIsNoBetter(c, CutTree(t), t);
      }
    } else {
      var a :| a in Alternatives(CutTree(t)) && forall b :: b in Alternatives(t) ==> !(b <= a);
      EasierIsSeen(CutTree(t), t, a);
      assert Rank(Or(Only(a), Print(t), 0).0) < Rank(Meaning(Only(a), t));
    }
  }

  /** Naming a licence twice can make an early WITH harmless. */
  lemma RepeatedNameIsHarmless(c: string -> Verdict)
    ensures var t := Both(With("MIT", "e"), Id("MIT"));
            WellFormed(t) && !NamesOnce(t) && WithBeforeLast(t) && Or(c, Print(t), 0).0 == Meaning(c, t)
  {
    var t := Both(With("MIT", "e"), Id("MIT"));
    SomeNames();
    assert "MIT" in Names(t.left) && "MIT" in Names(t.right);
    WithCutsTheExpression(c, t);
  }

  lemma SomeNames()
    ensures IsName("MIT") && IsName("e") && IsName("GPL-3.0-only")
  {
    hide IsWord, Upper;
    UpperLength("MIT");
    UpperAt("MIT", 0);
    UpperLength("e");
    UpperLength("GPL-3.0-only");
    SomeWords();
  }

  lemma UpperLength(s: string)
    ensures |Upper(s)| == |s|
  {}

  lemma SomeWords()
    ensures IsWord("MIT") && IsWord("e") && IsWord("GPL-3.0-only")
  {}

  // ----- what the parser does with words that are no expression -----

  /** Past the last token there is nothing, and nothing is denied. */
  lemma NothingIsDenied(c: string -> Verdict, tokens: seq<string>, pos: nat)
    requires pos >= |tokens|
    ensures Or(c, tokens, pos) == (Denied, pos + 1)
  {
    assert Atom(c, tokens, pos) == (Denied, pos + 1);
    StopsHere(c, tokens, Denied, pos + 1);
  }

  /** At the end no operator goes on. */
  lemma StopsHere(c: string -> Verdict, tokens: seq<string>, v: Verdict, pos: nat)
    requires pos >= |tokens|
    ensures AndRest(c, tokens, v, pos) == (v, pos) && OrRest(c, tokens, v, pos) == (v, pos)
  {}

  /** An operator or a parenthesis with nothing after it; and a parenthesis that is never closed. */
  lemma Dangling(c: string -> Verdict, name: string)
    requires IsName(name)
    ensures Or(c, [name, "AND"], 0).0 == Denied && Or(c, [name, "OR"], 0).0 == c(name)
    ensures Or(c, ["("], 0).0 == Denied && Or(c, ["(", name], 0).0 == c(name)
  {
    Keywords();
    WordIsNoParen(name);
    AndAtEnd(c, name);
    OrAtEnd(c, name);
    OpenedAtEnd(c, name);
  }

  lemma AndAtEnd(c: string -> Verdict, name: string)
    requires name != "(" && Upper("AND") == "AND"
    ensures Or(c, [name, "AND"], 0).0 == Denied
  {
    hide Upper;
    assert Atom(c, [name, "AND"], 0) == (c(name), 1) && Atom(c, [name, "AND"], 2) == (Denied, 3);
    TakesAnd(c, [name, "AND"], c(name), 1);
  }

  lemma OrAtEnd(c: string -> Verdict, name: string)
    requires name != "(" && Upper("OR") == "OR"
    ensures Or(c, [name, "OR"], 0).0 == c(name)
  {
    hide Upper;
    var tokens := [name, "OR"];
    assert Atom(c, tokens, 0) == (c(name), 1) && Atom(c, tokens, 2) == (Denied, 3);
    assert AndRest(c, tokens, c(name), 1) == (c(name), 1);
    StopsHere(c, tokens, Denied, 3);
    TakesOr(c, tokens, c(name), 1);
    StopsHere(c, tokens, Better(c(name), Denied), 3);
  }

  lemma OpenedAtEnd(c: string -> Verdict, name: string)
    requires name != "("
    ensures Or(c, ["("], 0).0 == Denied && Or(c, ["(", name], 0).0 == c(name)
  {
    var open, more := ["("], ["(", name];
    NothingIsDenied(c, open, 1);
    assert Atom(c, open, 0) == (Denied, 2);
    StopsHere(c, open, Denied, 2);
    assert Atom(c, more, 1) == (c(name), 2);
    StopsHere(c, more, c(name), 2);
    assert Or(c, more, 1) == (c(name), 2);
    assert Atom(c, more, 0) == (c(name), 2);
  }

  /** The same word, or the same operator in other letters. */
  ghost predicate Alike(a: string, b: string) {
    a == b || (Upper(a) == Upper(b) && (Upper(a) == "AND" || Upper(a) == "OR"))
  }

  ghost predicate AllAlike(a: seq<string>, b: seq<string>) {
    |a| == |b| && forall i :: 0 <= i < |a| ==> Alike(a[i], b[i])
  }

  /** Operators count in capitals and small letters: spelling them otherwise changes no verdict. */
  lemma {:induction false} OperatorsInAnyCase(c: string -> Verdict, a: seq<string>, b: seq<string>, pos: nat)
    requires AllAlike(a, b) && forall x, y :: Alike(x, y) ==> c(x) == c(y)
    ensures Or(c, a, pos) == Or(c, b, pos)
    decreases Left(a, pos), 4
  {
    AndInAnyCase(c, a, b, pos);
    var first := And(c, a, pos);
    OrRestInAnyCase(c, a, b, first.0, first.1);
  }

  lemma {:induction false} OrRestInAnyCase(c: string -> Verdict, a: seq<string>, b: seq<string>, v: Verdict, pos: nat)
    requires AllAlike(a, b) && forall x, y :: Alike(x, y) ==> c(x) == c(y)
    ensures OrRest(c, a, v, pos) == OrRest(c, b, v, pos)
    decreases Left(a, pos), 3
  {
    hide And;
    if pos < |a| { assert Alike(a[pos], b[pos]); }
    if Peeks(a, pos, "OR") {
      AndInAnyCase(c, a, b, pos + 1);
      var next := And(c, a, pos + 1);
      OrRestInAnyCase(c, a, b, Better(v, next.0), next.1);
    }
  }

  lemma {:induction false} AndInAnyCase(c: string -> Verdict, a: seq<string>, b: seq<string>, pos: nat)
    requires AllAlike(a, b) && forall x, y :: Alike(x, y) ==> c(x) == c(y)
    ensures And(c, a, pos) == And(c, b, pos)
    decreases Left(a, pos), 2
  {
    AtomInAnyCase(c, a, b, pos);
    var first := Atom(c, a, pos);
    AndRestInAnyCase(c, a, b, first.0, first.1);
  }

  lemma {:induction false} AndRestInAnyCase(c: string -> Verdict, a: seq<string>, b: seq<string>, v: Verdict, pos: nat)
    requires AllAlike(a, b) && forall x, y :: Alike(x, y) ==> c(x) == c(y)
    ensures AndRest(c, a, v, pos) == AndRest(c, b, v, pos)
    decreases Left(a, pos), 1
  {
    hide Atom;
    if pos < |a| { assert Alike(a[pos], b[pos]); }
    if Peeks(a, pos, "AND") {
      AtomInAnyCase(c, a, b, pos + 1);
      var next := Atom(c, a, pos + 1);
      AndRestInAnyCase(c, a, b, Worse(v, next.0), next.1);
    }
  }

  lemma {:induction false} AtomInAnyCase(c: string -> Verdict, a: seq<string>, b: seq<string>, pos: nat)
    requires AllAlike(a, b) && forall x, y :: Alike(x, y) ==> c(x) == c(y)
    ensures Atom(c, a, pos) == Atom(c, b, pos)
    decreases Left(a, pos), 0
  {
    hide Or;
    if pos < |a| {
      assert Alike(a[pos], b[pos]);
      ParenIsAlikeToItself(a[pos], b[pos]);
      if a[pos] == "(" {
        OperatorsInAnyCase(c, a, b, pos + 1);
        var q := Or(c, a, pos + 1).1;
        if q < |a| {
          assert Alike(a[q], b[q]);
          ParenIsAlikeToItself(a[q], b[q]);
        }
      }
    }
  }

  /** Two names and an operator in small letters, or mixed. */
  lemma SmallLetters(c: string -> Verdict, a: string, b: string, op: string)
    requires IsName(a) && IsName(b)
    ensures op in {"and", "And", "aNd", "AND"} ==> Or(c, [a, op, b], 0).0 == Worse(c(a), c(b))
    ensures op in {"or", "Or", "oR", "OR"} ==> Or(c, [a, op, b], 0).0 == Better(c(a), c(b))
  {
    WordIsNoParen(a);
    WordIsNoParen(b);
    SpelledAlike(op);
    hide Upper;
    if Upper(op) == "AND" { TwoWithAnd(c, a, b, op); }
    if Upper(op) == "OR" { TwoWithOr(c, a, b, op); }
  }

  lemma TwoWithAnd(c: string -> Verdict, a: string, b: string, op: string)
    requires a != "(" && b != "(" && Upper(op) == "AND"
    ensures Or(c, [a, op, b], 0).0 == Worse(c(a), c(b))
  {
    hide Upper;
    var tokens := [a, op, b];
    assert Atom(c, tokens, 0) == (c(a), 1) && Atom(c, tokens, 2) == (c(b), 3);
    var v := Worse(c(a), c(b));
    StopsHere(c, tokens, v, 3);
    assert Peeks(tokens, 1, "AND");
    assert AndRest(c, tokens, c(a), 1) == (v, 3);
  }

  lemma TwoWithOr(c: string -> Verdict, a: string, b: string, op: string)
    requires a != "(" && b != "(" && Upper(op) == "OR"
    ensures Or(c, [a, op, b], 0).0 == Better(c(a), c(b))
  {
    hide Upper;
    var tokens := [a, op, b];
    assert Atom(c, tokens, 0) == (c(a), 1) && Atom(c, tokens, 2) == (c(b), 3);
    StopsHere(c, tokens, c(b), 3);
    assert And(c, tokens, 2) == (c(b), 3);
    var v := Better(c(a), c(b));
    StopsHere(c, tokens, v, 3);
    assert Peeks(tokens, 1, "OR") && !Peeks(tokens, 1, "AND");
    assert And(c, tokens, 0) == (c(a), 1);
    assert OrRest(c, tokens, c(a), 1) == (v, 3);
  }

  lemma SpelledAlike(op: string)
    ensures op in {"and", "And", "aNd", "AND"} ==> Upper(op) == "AND"
    ensures op in {"or", "Or", "oR", "OR"} ==> Upper(op) == "OR"
  {}

  lemma ParenIsAlikeToItself(x: string, y: string)
    requires Alike(x, y)
    ensures (x == "(" <==> y == "(") && (x == ")" <==> y == ")")
  {
    Keywords();
    hide Upper;
  }

  /** Which letters count as one: the English ones. */
  lemma UpperTable()
    ensures Upper("abcdefghijklmnopqrstuvwxyz") == "ABCDEFGHIJKLMNOPQRSTUVWXYZ"
    ensures forall c: char :: !('a' <= c <= 'z') ==> UpperChar(c) == c
  {
    assert Upper("abcdefghijklmnopqrstuvwxyz") == "ABCDEFGHIJKLMNOPQRSTUVWXYZ";
  }

  /** What `\s` and `trim` take for white space. */
  lemma SpaceTable(c: char)
    ensures IsSpace(c)
            <==> c as int in {9, 10, 11, 12, 13, 32, 160, 0x1680, 0x2000, 0x2001, 0x2002, 0x2003, 0x2004, 0x2005,
                              0x2006, 0x2007, 0x2008, 0x2009, 0x200A, 0x2028, 0x2029, 0x202F, 0x205F, 0x3000, 0xFEFF}
  {}

  // ----- from the text -----

  const ALLOWED: set<string> := {
    "MIT", "MIT-0", "Apache-2.0", "BSD-2-Clause", "BSD-3-Clause", "ISC", "0BSD", "Unlicense",
    "CC0-1.0", "BlueOak-1.0.0", "Zlib", "Python-2.0", "CC-BY-4.0",
    "OFL-1.1", "OFL-1.1-RFN", "OFL-1.1-no-RFN"
  }

  const REVIEW: set<string> := {
    "MPL-2.0", "EPL-2.0", "CDDL-1.0", "Artistic-2.0", "LGPL-3.0-only", "LGPL-3.0-or-later"
  }

  function TrimLeft(s: string): (r: string)
    ensures r == "" || !IsSpace(r[0])
  {
    if s != "" && IsSpace(s[0]) then TrimLeft(s[1..]) else s
  }

  function TrimRight(s: string): (r: string)
    ensures r <= s
    ensures r == "" || !IsSpace(r[|r| - 1])
  {
    if s != "" && IsSpace(s[|s| - 1]) then TrimRight(s[..|s| - 1]) else s
  }

  function Trim(s: string): string {
    TrimRight(TrimLeft(s))
  }

  predicate SpacesBetween(s: string, i: nat, m: nat) {
    i < m <= |s| && forall k :: i <= k < m ==> IsSpace(s[k])
  }

  /** `/\s+WITH\s+/i` matches at `i`. */
  predicate WithMatches(s: string, i: nat) {
    exists m: nat :: SpacesBetween(s, i, m) && m + 4 < |s|
      && Upper(s[m..m + 4]) == "WITH" && IsSpace(s[m + 4])
  }

  function BeforeWith(s: string, i: nat): string
    requires i <= |s|
    decreases |s| - i
  {
    if i == |s| then s
    else if WithMatches(s, i) then s[..i]
    else BeforeWith(s, i + 1)
  }

  function DropPlus(s: string): string {
    if s != "" && s[|s| - 1] == '+' then s[..|s| - 1] else s
  }

  function Lookup(id: string): Verdict {
    if id in ALLOWED then Allowed
    else if id in REVIEW then Review
    else Denied
  }

  function ClassifyId(rawId: string): Verdict {
    var id := DropPlus(Trim(BeforeWith(rawId, 0)));
    if id == "" then Denied else Lookup(id)
  }

  lemma {:induction false} NoWithInWord(s: string, i: nat)
    requires IsWord(s) && i <= |s|
    ensures BeforeWith(s, i) == s
    decreases |s| - i
  {
    if i < |s| {
      assert s[i] in s;
      NoWithInWord(s, i + 1);
    }
  }

  /** classifyId's own handling of WITH never fires in the parser: a token holds no white space. */
  lemma TokensAreTakenWhole(tokens: seq<string>, text: string, k: nat)
    requires tokens == Tokenize(text) && k < |tokens| && tokens[k] != "(" && tokens[k] != ")"
    ensures ClassifyId(tokens[k])
         == (if tokens[k] == "+" then Denied else Lookup(DropPlus(tokens[k])))
  {
    hide Tokenize, Lookup, BeforeWith;
    var s := tokens[k];
    assert s in tokens;
    NoWithInWord(s, 0);
    assert s[0] in s && s[|s| - 1] in s;
    assert Trim(s) == s;
  }

  predicate Refused(text: string) {
    text == "" || Upper(text) == "UNKNOWN" || "SEE LICENSE" <= Upper(text) || text == "UNLICENSED"
  }

  function Classified(expr: string): Verdict {
    var text := Trim(expr);
    if Refused(text) then Denied
    else
      var tokens := Tokenize(text);
      if tokens == [] then Denied else Or(ClassifyId, tokens, 0).0
  }

  method ClassifyExpression(expr: string) returns (verdict: Verdict)
    ensures verdict == Classified(expr)
  {
    var text := Trim(expr);
    if Refused(text) {
      return Denied;
    }
    var tokens := Tokenize(text);
    if tokens == [] {
      return Denied;
    }
    var parser := new Parser(ClassifyId, tokens);
    verdict := parser.ParseOr();
  }

  lemma {:induction false} WordLengthOf(word: string, rest: string)
    requires forall c :: c in word ==> IsWordChar(c)
    requires rest == "" || !IsWordChar(rest[0])
    ensures WordLength(word + rest) == |word|
  {
    assert forall i :: 0 <= i < |word| ==> (word + rest)[i] == word[i] && word[i] in word;
    assert rest != "" ==> (word + rest)[|word|] == rest[0];
  }

  lemma TokenizeWord(word: string, rest: string)
    requires IsWord(word) && (rest == "" || !IsWordChar(rest[0]))
    ensures Tokenize(word + rest) == [word] + Tokenize(rest)
  {
    var text := word + rest;
    WordLengthOf(word, rest);
    assert text[0] == word[0] && word[0] in word;
    assert text[..|word|] == word && text[|word|..] == rest;
  }

  lemma TokenizeParen(paren: char, rest: string)
    requires IsParen(paren)
    ensures Tokenize([paren] + rest) == [[paren]] + Tokenize(rest)
  {
    assert ([paren] + rest)[1..] == rest && ([paren] + rest)[..1] == [paren];
  }

  lemma TokenizeSpaced(word: string, rest: string)
    requires IsWord(word) && rest != "" && rest[0] == ' '
    ensures Tokenize(" " + word + rest) == [word] + Tokenize(rest[1..])
  {
    var text := " " + word + rest;
    assert text[1..] == word + rest;
    TokenizeWord(word, rest);
  }

  lemma OperatorsAreWords()
    ensures IsWord("AND") && IsWord("OR") && IsWord("WITH")
  {}

  function Spaced(op: string, b: string, rest: string): (s: string)
    ensures s != "" && !IsWordChar(s[0])
  {
    " " + op + (" " + (b + rest))
  }

  lemma TokenizeInfix(a: string, op: string, b: string, rest: string, ta: seq<string>, tb: seq<string>)
    requires IsWord(op)
    requires Tokenize(a + Spaced(op, b, rest)) == ta + Tokenize(Spaced(op, b, rest))
    requires Tokenize(b + rest) == tb + Tokenize(rest)
    ensures Tokenize(Infix(a, op, b) + rest) == ta + [op] + tb + Tokenize(rest)
  {
    hide Tokenize;
    var after := " " + (b + rest);
    assert Infix(a, op, b) + rest == a + Spaced(op, b, rest);
    TokenizeSpaced(op, after);
    assert after[1..] == b + rest;
  }

  lemma {:induction false} TokenizeRender(t: Tree, rest: string)
    requires WellFormed(t) && (rest == "" || !IsWordChar(rest[0]))
    ensures Tokenize(Render(t) + rest) == Print(t) + Tokenize(rest)
    decreases t, 0
  {
    OperatorsAreWords();
    hide Tokenize, IsWord, Infix, Spaced;
    match t
    case Id(n) =>
      TokenizeWord(n, rest);
    case With(n, e) =>
      TokenizeWord(n, Spaced("WITH", e, rest));
      TokenizeWord(e, rest);
      TokenizeInfix(n, "WITH", e, rest, [n], [e]);
      assert Print(t) == [n] + ["WITH"] + [e];
    case Both(l, r) =>
      TokenizeFactor(l, Spaced("AND", RenderFactor(r), rest));
      TokenizeFactor(r, rest);
      TokenizeInfix(RenderFactor(l), "AND", RenderFactor(r), rest, PrintFactor(l), PrintFactor(r));
    case Either(l, r) =>
      TokenizeRender(l, Spaced("OR", Render(r), rest));
      TokenizeRender(r, rest);
      TokenizeInfix(Render(l), "OR", Render(r), rest, Print(l), Print(r));
    case Group(e) =>
      TokenizeBracketed(e, rest);
  }

  lemma {:induction false} TokenizeBracketed(e: Tree, rest: string)
    requires WellFormed(e)
    ensures Tokenize("(" + Render(e) + ")" + rest) == ["("] + Print(e) + [")"] + Tokenize(rest)
    decreases e, 1
  {
    assert "(" + Render(e) + ")" + rest == ['('] + (Render(e) + ([')'] + rest));
    TokenizeParen('(', Render(e) + ([')'] + rest));
    TokenizeRender(e, [')'] + rest);
    TokenizeParen(')', rest);
  }

  lemma {:induction false} TokenizeFactor(t: Tree, rest: string)
    requires WellFormed(t) && (rest == "" || !IsWordChar(rest[0]))
    ensures Tokenize(RenderFactor(t) + rest) == PrintFactor(t) + Tokenize(rest)
    decreases t, 2
  {
    if t.Either? { TokenizeBracketed(t, rest); } else { TokenizeRender(t, rest); }
  }

  /** How a rendering starts: with a parenthesis, or with a name and then nothing, `)` or ` A`, ` O`, ` W`. */
  ghost predicate Starts(s: string, first: string) {
    IsWord(first) && first <= s &&
    var tail := s[|first|..];
    tail == "" || tail[0] == ')' ||
    (|tail| >= 2 && tail[0] == ' ' && (tail[1] == 'A' || tail[1] == 'O' || tail[1] == 'W'))
  }

  lemma NameStarts(n: string)
    requires IsName(n)
    ensures n != "" && !IsSpace(n[0]) && !IsSpace(n[|n| - 1]) && Starts(n, n)
  {
    hide Upper;
    assert n[0] in n && n[|n| - 1] in n;
  }

  lemma InfixStarts(a: string, op: string, b: string, first: string)
    requires a != "" && b != "" && !IsSpace(a[0]) && !IsSpace(b[|b| - 1])
    requires a[0] == '(' || Starts(a, first)
    requires op == "AND" || op == "OR" || op == "WITH"
    ensures var s := Infix(a, op, b);
            s != "" && !IsSpace(s[0]) && !IsSpace(s[|s| - 1]) && (s[0] == '(' || Starts(s, first))
  {}

  lemma {:induction false} RenderStarts(t: Tree) returns (first: string)
    requires WellFormed(t)
    ensures var s := Render(t); s != "" && !IsSpace(s[0]) && !IsSpace(s[|s| - 1])
    ensures Render(t)[0] == '(' || Starts(Render(t), first)
    decreases t, 0
  {
    hide Starts, IsName, Infix, RenderFactor;
    match t
    case Id(n) =>
      first := n;
      NameStarts(n);
    case With(n, e) =>
      first := n;
      NameStarts(n);
      NameStarts(e);
      InfixStarts(n, "WITH", e, n);
    case Both(l, r) =>
      first := FactorStarts(l);
      var _ := FactorStarts(r);
      InfixStarts(RenderFactor(l), "AND", RenderFactor(r), first);
    case Either(l, r) =>
      first := RenderStarts(l);
      var _ := RenderStarts(r);
      InfixStarts(Render(l), "OR", Render(r), first);
    case Group(e) =>
      first := "";
  }

  lemma {:induction false} FactorStarts(t: Tree) returns (first: string)
    requires WellFormed(t)
    ensures var s := RenderFactor(t); s != "" && !IsSpace(s[0]) && !IsSpace(s[|s| - 1])
    ensures RenderFactor(t)[0] == '(' || Starts(RenderFactor(t), first)
    decreases t, 1
  {
    if t.Either? { first := ""; } else { first := RenderStarts(t); }
  }

  lemma SeeLicenseLetters(u: string)
    ensures "SEE LICENSE" <= u ==>
              |u| >= 5 && u[0] == 'S' && u[1] == 'E' && u[2] == 'E' && u[3] == ' ' && u[4] == 'L'
  {}

  lemma NotSeeLicense(s: string, first: string)
    requires s != "" && (s[0] == '(' || Starts(s, first))
    ensures !("SEE LICENSE" <= Upper(s))
  {
    var u, k := Upper(s), |first|;
    assert forall i :: 0 <= i < |s| ==> u[i] == UpperChar(s[i]);
    SeeLicenseLetters(u);
    if s[0] != '(' {
      assert forall i :: 0 <= i < k ==> first[i] in first && s[i] == first[i];
      assert k < |s| ==> s[k] == s[k..][0];
      assert k + 1 < |s| ==> s[k + 1] == s[k..][1];
    }
  }

  /** A refused text without SEE LICENSE is one word, so it can only be a lone name. */
  lemma OneWordRefused(t: Tree, s: string)
    requires WellFormed(t) && s == Render(t) && Refused(s) && s != "" && !("SEE LICENSE" <= Upper(s))
    ensures t.Id? && t.name == s
  {
    hide Render, WellFormed, Refused, Upper, UpperChar, IsWordChar;
    RefusedIsOneWord(s);
    OnlyNamesAreOneWord(t, s);
    LoneName(t);
  }

  lemma LoneName(t: Tree)
    requires t.Id?
    ensures Render(t) == t.name
  {}

  lemma RefusedIsOneWord(s: string)
    requires Refused(s) && s != "" && !("SEE LICENSE" <= Upper(s))
    ensures forall i :: 0 <= i < |s| ==> IsWordChar(s[i])
  {
    hide IsWordChar;
    var u := Upper(s);
    hide Upper;
    forall i | 0 <= i < |s| ensures IsWordChar(s[i]) {
      UpperAt(s, i);
      if s != "UNLICENSED" { UnknownLetters(u, i); }
      LetterIsWordChar(s[i]);
    }
  }

  lemma UpperAt(s: string, i: nat)
    requires i < |s|
    ensures |Upper(s)| == |s| && Upper(s)[i] == UpperChar(s[i])
  {}

  lemma UnknownLetters(u: string, i: nat)
    requires u == "UNKNOWN" && i < |u|
    ensures 'A' <= u[i] <= 'Z'
  {}

  lemma LetterIsWordChar(c: char)
    requires 'A' <= UpperChar(c) <= 'Z' || 'A' <= c <= 'Z'
    ensures IsWordChar(c)
  {}

  /** The early refusals agree with looking the name up. */
  lemma RefusedNameIsDenied(s: string)
    requires IsName(s) && Refused(s) && !("SEE LICENSE" <= Upper(s))
    ensures ClassifyId(s) == Denied
  {
    NoWithInWord(s, 0);
    assert forall i :: 0 <= i < |s| ==> Upper(s)[i] == UpperChar(s[i]) && s[i] in s;
    assert Trim(s) == s;
    assert s[1] == 'n' || s[1] == 'N';
    assert |s| == 7 || s == "UNLICENSED";
    assert s[|s| - 1] != '+' && DropPlus(s) == s;
    NotListed(s);
  }

  lemma NotListed(s: string)
    requires |s| == 7 || s == "UNLICENSED"
    requires |s| == 7 ==> UpperChar(s[0]) == 'U'
    ensures Lookup(s) == Denied
  {}

  lemma {:induction false} OnlyNamesAreOneWord(t: Tree, s: string)
    requires s == Render(t)
    ensures t.Id? || exists i :: 0 <= i < |s| && !IsWordChar(s[i])
  {
    match t
    case Id(_) =>
    case With(n, e) => assert s[|n|] == ' ';
    case Both(l, r) =>
      var a := RenderFactor(l);
      assert s[|a|] == ' ';
    case Either(l, r) =>
      var a := Render(l);
      assert s[|a|] == ' ';
    case Group(e) => assert s[0] == '(';
  }

  /**
   * For every expression of the grammar, written with the fewest parentheses or with more, the
   * verdict is what the expression means; with WITH inside, what it means up to the first WITH.
   */
  lemma ClassifyUndoesRender(t: Tree)
    requires WellFormed(t)
    ensures Classified(Render(t)) == if WithFree(t) then Meaning(ClassifyId, t) else Cut(ClassifyId, t)
  {
    hide Or, Tokenize, Render, Print, Trim, Cut, Meaning, ClassifyId, Upper, Refused, Starts, WellFormed, WithFree;
    var s := Render(t);
    var first := RenderStarts(t);
    TrimKeeps(s);
    NotSeeLicense(s, first);
    TokensOfRender(t);
    WithCutsTheExpression(ClassifyId, t);
    if Refused(s) {
      OneWordRefused(t, s);
      LoneNameMeans(t);
      RefusedNameIsDenied(s);
    }
  }

  lemma TrimKeeps(s: string)
    requires s != "" && !IsSpace(s[0]) && !IsSpace(s[|s| - 1])
    ensures Trim(s) == s
  {}

  lemma {:induction false} TrimLeftStrips(spaces: string, s: string)
    requires (forall c :: c in spaces ==> IsSpace(c)) && (s == "" || !IsSpace(s[0]))
    ensures TrimLeft(spaces + s) == s
  {
    if spaces == "" {
      assert "" + s == s;
    } else {
      assert spaces[0] in spaces && (spaces + s)[1..] == spaces[1..] + s;
      TrimLeftStrips(spaces[1..], s);
    }
  }

  lemma {:induction false} TrimRightStrips(s: string, spaces: string)
    requires (forall c :: c in spaces ==> IsSpace(c)) && (s == "" || !IsSpace(s[|s| - 1]))
    ensures TrimRight(s + spaces) == s
  {
    if spaces == "" {
      assert s + "" == s;
    } else {
      var n := |spaces| - 1;
      assert spaces[n] in spaces && (s + spaces)[..|s + spaces| - 1] == s + spaces[..n];
      TrimRightStrips(s, spaces[..n]);
    }
  }

  /** White space around an expression changes nothing. */
  lemma SpacesAround(t: Tree, before: string, after: string)
    requires WellFormed(t) && (forall c :: c in before ==> IsSpace(c)) && (forall c :: c in after ==> IsSpace(c))
    ensures Trim(before + Render(t) + after) == Render(t)
    ensures Classified(before + Render(t) + after) == Classified(Render(t))
  {
    hide IsSpace, Render, WellFormed, Starts, Refused, TrimLeft, TrimRight;
    var s := Render(t);
    var _ := RenderStarts(t);
    assert before + s + after == before + (s + after);
    assert (s + after)[0] == s[0];
    TrimLeftStrips(before, s + after);
    TrimRightStrips(s, after);
    TrimKeeps(s);
  }

  lemma TokensOfRender(t: Tree)
    requires WellFormed(t)
    ensures Tokenize(Render(t)) == Print(t)
  {
    hide Tokenize, Render, Print, WellFormed;
    TokenizeRender(t, "");
    NoTokens();
    assert Render(t) + "" == Render(t) && Print(t) + [] == Print(t);
  }

  lemma NoTokens()
    ensures Tokenize("") == []
  {}

  lemma LoneNameMeans(t: Tree)
    requires WellFormed(t) && t.Id?
    ensures IsName(t.name) && WithFree(t) && Meaning(ClassifyId, t) == ClassifyId(t.name)
  {}

  lemma WordIsLookedUp(s: string)
    requires IsWord(s) && s[|s| - 1] != '+'
    ensures ClassifyId(s) == Lookup(s)
  {
    hide Lookup, BeforeWith;
    NoWithInWord(s, 0);
    assert s[0] in s && s[|s| - 1] in s;
    assert Trim(s) == s;
  }

  lemma TwoLookups()
    ensures ClassifyId("MIT") == Allowed && ClassifyId("GPL-3.0-only") == Denied
  {
    hide ClassifyId, IsName, Lookup;
    SomeNames();
    NamesAreWords();
    TwoListed();
    WordIsLookedUp("MIT");
    WordIsLookedUp("GPL-3.0-only");
  }

  lemma NamesAreWords()
    ensures IsName("MIT") ==> IsWord("MIT")
    ensures IsName("GPL-3.0-only") ==> IsWord("GPL-3.0-only")
  {}

  /** A plus at the end of a name is not looked at. */
  lemma PlusIsDropped(name: string)
    requires IsWord(name) && name[|name| - 1] != '+'
    ensures ClassifyId(name + "+") == Lookup(name)
  {
    hide Lookup, BeforeWith;
    var s := name + "+";
    assert s[0] == name[0] && name[0] in name && forall c :: c in s ==> c in name || c == '+';
    NoWithInWord(s, 0);
    assert Trim(s) == s;
    assert DropPlus(s) == name;
  }

  lemma {:induction false} CutsAtWith(s: string, i: nat, n: nat)
    requires i <= n <= |s| && WithMatches(s, n) && forall k :: i <= k < n ==> !IsSpace(s[k])
    ensures BeforeWith(s, i) == s[..n]
    decreases n - i
  {
    hide IsSpace, Upper;
    if i < n {
      assert !IsSpace(s[i]);
      assert forall m: nat :: !SpacesBetween(s, i, m);
      CutsAtWith(s, i + 1, n);
    }
    assert s[..|s|] == s;
  }

  /** A text that is one name, spaces, `with` in any letters, a space and anything: only the name is looked up. */
  lemma WithIsSetAside(name: string, spaces: string, word: string, space: char, rest: string)
    requires IsWord(name) && name[|name| - 1] != '+'
    requires spaces != "" && (forall c :: c in spaces ==> IsSpace(c)) && IsSpace(space)
    requires |word| == 4 && Upper(word) == "WITH"
    ensures ClassifyId(name + spaces + word + [space] + rest) == Lookup(name)
  {
    hide Lookup, BeforeWith, Upper, WithMatches, IsSpace;
    var s := name + spaces + word + [space] + rest;
    WithMatchesAt(name, spaces, word, space, rest);
    WordHoldsNoSpace(name);
    CutsAtWith(s, 0, |name|);
    TrimKeeps(name);
  }

  lemma WordHoldsNoSpace(name: string)
    requires IsWord(name)
    ensures forall k :: 0 <= k < |name| ==> !IsSpace(name[k])
  {
    assert forall k :: 0 <= k < |name| ==> name[k] in name;
  }

  lemma WithMatchesAt(name: string, spaces: string, word: string, space: char, rest: string)
    requires spaces != "" && (forall c :: c in spaces ==> IsSpace(c)) && IsSpace(space)
    requires |word| == 4 && Upper(word) == "WITH"
    ensures var s := name + spaces + word + [space] + rest;
            WithMatches(s, |name|) && s[..|name|] == name && forall k :: 0 <= k < |name| ==> s[k] == name[k]
  {
    hide Upper, IsSpace;
    var s, n, m := name + spaces + word + [space] + rest, |name|, |name| + |spaces|;
    assert forall k :: n <= k < m ==> s[k] == spaces[k - n] && spaces[k - n] in spaces;
    assert SpacesBetween(s, n, m);
    assert s[m..m + 4] == word && s[m + 4] == space;
  }

  /** The texts that are refused before any token is read. */
  lemma RefusedIsDenied(expr: string)
    ensures var t := Trim(expr);
            t == "" || Upper(t) == "UNKNOWN" || (|t| >= 11 && Upper(t)[..11] == "SEE LICENSE") || t == "UNLICENSED" ==>
              Classified(expr) == Denied
  {}

  /** The script's lists, and nothing else, decide a name. */
  lemma LookupTable(id: string)
    ensures Lookup(id) == Allowed
            <==> id in {"MIT", "MIT-0", "Apache-2.0", "BSD-2-Clause", "BSD-3-Clause", "ISC", "0BSD", "Unlicense",
                        "CC0-1.0", "BlueOak-1.0.0", "Zlib", "Python-2.0", "CC-BY-4.0",
                        "OFL-1.1", "OFL-1.1-RFN", "OFL-1.1-no-RFN"}
    ensures Lookup(id) == Review
            <==> id in {"MPL-2.0", "EPL-2.0", "CDDL-1.0", "Artistic-2.0", "LGPL-3.0-only", "LGPL-3.0-or-later"}
  {
    ListsAreApart(id);
  }

  lemma ListsAreApart(id: string)
    ensures id in REVIEW ==> id !in ALLOWED
  {
    assert forall x :: x in REVIEW ==> x[0] in {'E', 'L'} || x[1] in {'P', 'D', 'r'};
    assert forall x :: x in ALLOWED ==> x[0] !in {'E', 'L'} && x[1] !in {'P', 'D', 'r'};
  }

  lemma TwoListed()
    ensures Lookup("MIT") == Allowed && Lookup("GPL-3.0-only") == Denied
  {
    assert "GPL-3.0-only"[0] == 'G';
    assert forall x :: x in ALLOWED + REVIEW ==> x[0] != 'G';
  }

  /** On the script's own lists: a denied licence after a WITH goes unseen. */
  lemma WithHidesADenial()
    ensures var t := Both(With("MIT", "e"), Id("GPL-3.0-only"));
            Render(t) == "MIT WITH e AND GPL-3.0-only"
            && Classified("MIT WITH e AND GPL-3.0-only") == Allowed && Meaning(ClassifyId, t) == Denied
  {
    hide Classified, ClassifyId, IsName, Render;
    var t := Both(With("MIT", "e"), Id("GPL-3.0-only"));
    SomeNames();
    TwoLookups();
    RenderOfExample();
    ClassifyUndoesRender(t);
  }

  lemma RenderOfExample()
    ensures Render(Both(With("MIT", "e"), Id("GPL-3.0-only"))) == "MIT WITH e AND GPL-3.0-only"
  {
    assert Render(With("MIT", "e")) == "MIT WITH e";
    assert RenderFactor(With("MIT", "e")) == "MIT WITH e";
  }
}
