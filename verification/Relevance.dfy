/**
 Relevance scoring: the bag-of-words cosine and the skill affinity of
 `crates/lc-a2a/src/scale.rs`, the selection loop of `crates/lc-a2a/src/router.rs`
 and the vector cosine of `crates/lc-core/src/math.rs`.

 A word-count cosine is never negative, so it is carried as its exact square, a
 quotient of two integers: no square root and no rounding. `CosineOfRoots` and
 `SquaresKeepOrder` say what that square means for the cosine itself.
 */
module Relevance {
  import opened Common
  import opened SetSum

  type Token = string

  // ---------- Arithmetic ----------

  function Square(x: int): int {
    x * x
  }

  lemma SquarePositive(x: int)
    ensures Square(x) >= 0
    ensures Square(x) == 0 <==> x == 0
  {
  }

  lemma ProductPositive(x: int, y: int)
    requires x > 0 && y > 0
    ensures x * y > 0
  {
  }

  lemma DistributeInt(k: int, x: int, y: int)
    ensures k * (x + y) == k * x + k * y
  {
  }

  lemma ExpandIntSquare(x: int, y: int, p: int, q: int)
    ensures Square(x * p - y * q) == p * p * (x * x) - 2 * (p * q * (x * y)) + q * q * (y * y)
  {
  }

  lemma GapArithmetic(a: int, b: int, d: int)
    ensures b * b * a - 2 * (b * d * d) + d * d * b == b * (a * b - d * d)
  {
  }

  lemma GapSign(b: int, gap: int)
    requires b > 0
    ensures b * gap >= 0 <==> gap >= 0
    ensures b * gap == 0 <==> gap == 0
  {
  }

  lemma SignOfProduct(x: real, k: real)
    requires k > 0.0
    ensures x * k > 0.0 <==> x > 0.0
    ensures x * k == 0.0 <==> x == 0.0
  {
  }

  lemma SquareSign(x: real)
    ensures x * x >= 0.0
  {
  }

  function Ratio(n: int, d: int): real
    requires d > 0
  {
    n as real / d as real
  }

  lemma RatioBounds(n: int, d: int)
    requires 0 <= n <= d && d > 0
    ensures 0.0 <= Ratio(n, d) <= 1.0
    ensures Ratio(n, d) == 1.0 <==> n == d
    ensures Ratio(n, d) > 0.0 <==> n > 0
  {
  }

  // ---------- The bag-of-words cosine ----------

  /** Weight of one word in the product of two bags. */
  function Product(a: seq<Token>, b: seq<Token>): Token -> int {
    t => multiset(a)[t] * multiset(b)[t]
  }

  ghost function Dot(a: seq<Token>, b: seq<Token>): int {
    Sum(ToSet(a), Product(a, b))
  }

  /** The square of the cosine of two bags of words; zero when either is empty. */
  ghost function CosineSq(a: seq<Token>, b: seq<Token>): real {
    if a == [] || b == [] then 0.0
    else
      NormsPositive(a, b);
      Ratio(Square(Dot(a, b)), Dot(a, a) * Dot(b, b))
  }

  lemma SumDiffersAt(u: set<Token>, f: Token -> int, g: Token -> int, t: Token)
    requires t in u && forall x :: x in u && x != t ==> f(x) == g(x)
    ensures Sum(u, g) - Sum(u, f) == g(t) - f(t)
  {
    SumRemove(u, f, t);
    SumRemove(u, g, t);
    SumAgree(u - {t}, f, g);
  }

  lemma ProductOfOneMore(a: seq<Token>, b: seq<Token>, t: Token)
    ensures forall x :: x != t ==> Product(a + [t], b)(x) == Product(a, b)(x)
    ensures Product(a + [t], b)(t) - Product(a, b)(t) == multiset(b)[t]
  {
    NextProduct(multiset(a)[t], multiset(b)[t]);
  }

  lemma NextProduct(x: int, y: int)
    ensures (x + 1) * y == x * y + y
  {
  }

  lemma NothingOutside(a: seq<Token>, b: seq<Token>, u: set<Token>)
    ensures forall x :: x in u - ToSet(a) ==> Product(a, b)(x) == 0
  {
  }

  /** One more word adds as often as it occurs on the other side. */
  lemma DotOfOneMore(a: seq<Token>, b: seq<Token>, t: Token)
    ensures Dot(a + [t], b) == Dot(a, b) + multiset(b)[t]
    ensures Dot([], b) == 0
  {
    var u := ToSet(a) + {t};
    assert ToSet(a + [t]) == u;
    NothingOutside(a, b, u);
    SumSubset(ToSet(a), u, Product(a, b));
    ProductOfOneMore(a, b, t);
    SumDiffersAt(u, Product(a, b), Product(a + [t], b), t);
    assert ToSet<Token>([]) == {};
  }

  lemma NormPositive(a: seq<Token>)
    ensures a == [] ==> Dot(a, a) == 0
    ensures a != [] ==> Dot(a, a) > 0
  {
    SumNonNegative(ToSet(a), Product(a, a));
    if a != [] {
      assert a[0] in ToSet(a);
      ProductPositive(multiset(a)[a[0]], multiset(a)[a[0]]);
      assert Product(a, a)(a[0]) > 0;
    }
  }

  lemma NormsPositive(a: seq<Token>, b: seq<Token>)
    requires a != [] && b != []
    ensures Dot(a, a) > 0 && Dot(b, b) > 0
    ensures Dot(a, a) * Dot(b, b) > 0
  {
    NormPositive(a);
    NormPositive(b);
    ProductPositive(Dot(a, a), Dot(b, b));
  }

  /** How far `p` copies of `a` are from `q` copies of `b` at one word. */
  function Scaled(a: seq<Token>, b: seq<Token>, p: int, q: int, t: Token): int {
    multiset(a)[t] * p - multiset(b)[t] * q
  }

  function Residual(a: seq<Token>, b: seq<Token>, p: int, q: int): Token -> int {
    t => Square(Scaled(a, b, p, q, t))
  }

  lemma {:induction false} ResidualSum(s: set<Token>, a: seq<Token>, b: seq<Token>, p: int, q: int)
    ensures Sum(s, Residual(a, b, p, q)) ==
            p * p * Sum(s, Product(a, a)) - 2 * (p * q * Sum(s, Product(a, b))) + q * q * Sum(s, Product(b, b))
    decreases s
  {
    if s != {} {
      var t := Pick(s);
      var x, y := multiset(a)[t], multiset(b)[t];
      ResidualSum(s - {t}, a, b, p, q);
      ExpandIntSquare(x, y, p, q);
      assert Residual(a, b, p, q)(t) == Square(x * p - y * q);
      DistributeInt(p * p, x * x, Sum(s - {t}, Product(a, a)));
      DistributeInt(p * q, x * y, Sum(s - {t}, Product(a, b)));
      DistributeInt(q * q, y * y, Sum(s - {t}, Product(b, b)));
    }
  }

  /** Sums over either bag's words may be taken over the words of both. */
  lemma DotOver(a: seq<Token>, b: seq<Token>)
    ensures var u := ToSet(a) + ToSet(b);
            && Dot(a, b) == Sum(u, Product(a, b))
            && Dot(a, a) == Sum(u, Product(a, a))
            && Dot(b, b) == Sum(u, Product(b, b))
  {
    var u := ToSet(a) + ToSet(b);
    SumSubset(ToSet(a), u, Product(a, b));
    SumSubset(ToSet(a), u, Product(a, a));
    SumSubset(ToSet(b), u, Product(b, b));
  }

  /** The two bags point the same way: their counts are proportional. */
  ghost predicate Proportional(a: seq<Token>, b: seq<Token>) {
    forall t :: Scaled(a, b, Dot(b, b), Dot(a, b), t) == 0
  }

  lemma NoResidual(a: seq<Token>, b: seq<Token>, u: set<Token>, p: int, q: int)
    ensures Sum(u, Residual(a, b, p, q)) >= 0
    ensures Sum(u, Residual(a, b, p, q)) == 0 <==> forall t :: t in u ==> Scaled(a, b, p, q, t) == 0
  {
  }

  lemma GapIdentity(a: seq<Token>, b: seq<Token>, u: set<Token>)
    requires u == ToSet(a) + ToSet(b)
    ensures Sum(u, Residual(a, b, Dot(b, b), Dot(a, b))) == Dot(b, b) * (Dot(a, a) * Dot(b, b) - Square(Dot(a, b)))
  {
    DotOver(a, b);
    ResidualSum(u, a, b, Dot(b, b), Dot(a, b));
    GapArithmetic(Dot(a, a), Dot(b, b), Dot(a, b));
  }

  /** Cauchy-Schwarz for word counts, with its equality case: nothing is lost on proportional bags only. */
  lemma CauchySchwarz(a: seq<Token>, b: seq<Token>)
    ensures Square(Dot(a, b)) <= Dot(a, a) * Dot(b, b)
    ensures Square(Dot(a, b)) == Dot(a, a) * Dot(b, b) <==> Proportional(a, b)
  {
    if b == [] {
      NormPositive(b);
      SharedWord(a, b);
      SquarePositive(Dot(a, b));
    } else {
      CauchySchwarzOfWords(a, b);
    }
  }

  lemma CauchySchwarzOfWords(a: seq<Token>, b: seq<Token>)
    requires b != []
    ensures Square(Dot(a, b)) <= Dot(a, a) * Dot(b, b)
    ensures Square(Dot(a, b)) == Dot(a, a) * Dot(b, b) <==> Proportional(a, b)
  {
    var u := ToSet(a) + ToSet(b);
    NormPositive(b);
    NoResidual(a, b, u, Dot(b, b), Dot(a, b));
    GapIdentity(a, b, u);
    GapSign(Dot(b, b), Dot(a, a) * Dot(b, b) - Square(Dot(a, b)));
    OutsideBoth(a, b, u, Dot(b, b), Dot(a, b));
  }

  lemma OutsideBoth(a: seq<Token>, b: seq<Token>, u: set<Token>, p: int, q: int)
    requires u == ToSet(a) + ToSet(b)
    ensures forall t :: t !in u ==> Scaled(a, b, p, q, t) == 0
  {
  }

  lemma SharedWord(a: seq<Token>, b: seq<Token>)
    ensures Dot(a, b) >= 0
    ensures Square(Dot(a, b)) > 0 <==> exists t :: t in a && t in b
  {
    SumNonNegative(ToSet(a), Product(a, b));
    SquarePositive(Dot(a, b));
    if Dot(a, b) > 0 {
      var t := SumPositive(ToSet(a), Product(a, b));
      assert t in a && t in b;
    } else {
      forall t | t in a
        ensures t !in b
      {
        assert Product(a, b)(t) <= 0;
        if t in b {
          ProductPositive(multiset(a)[t], multiset(b)[t]);
        }
      }
    }
  }

  /** The score lies in [0, 1]; it is 1 exactly for proportional bags and 0 exactly without a shared word. */
  lemma CosineBounds(a: seq<Token>, b: seq<Token>)
    ensures 0.0 <= CosineSq(a, b) <= 1.0
    ensures CosineSq(a, b) > 0.0 <==> exists t :: t in a && t in b
    ensures a != [] && b != [] ==> (CosineSq(a, b) == 1.0 <==> Proportional(a, b))
  {
    SharedWord(a, b);
    if a == [] || b == [] {
      assert !exists t :: t in a && t in b;
    } else {
      CauchySchwarz(a, b);
      NormsPositive(a, b);
      SquarePositive(Dot(a, b));
      RatioBounds(Square(Dot(a, b)), Dot(a, a) * Dot(b, b));
    }
  }

  /** For the true norms `ra` and `rb` the quotient the code returns is in [0, 1] and squares to `CosineSq`. */
  lemma CosineOfRoots(a: seq<Token>, b: seq<Token>, ra: real, rb: real)
    requires a != [] && b != [] && ra > 0.0 && rb > 0.0
    requires ra * ra == Dot(a, a) as real && rb * rb == Dot(b, b) as real
    ensures ra * rb > 0.0
    ensures var c := Dot(a, b) as real / (ra * rb);
            0.0 <= c <= 1.0 && c * c == CosineSq(a, b)
  {
    CosineBounds(a, b);
    SharedWord(a, b);
    NormsPositive(a, b);
    RootsOfInts(Dot(a, b), Dot(a, a), Dot(b, b), ra, rb, CosineSq(a, b));
  }

  lemma RootsOfInts(d: int, na: int, nb: int, ra: real, rb: real, square: real)
    requires d >= 0 && ra > 0.0 && rb > 0.0 && ra * ra == na as real && rb * rb == nb as real && na * nb > 0
    requires square == Ratio(Square(d), na * nb) <= 1.0
    ensures ra * rb > 0.0
    ensures var c := d as real / (ra * rb);
            0.0 <= c <= 1.0 && c * c == square
  {
  }

  lemma RegroupSquares(x: real, y: real)
    ensures x * y * (x * y) == x * x * (y * y)
  {
  }

  /** Ranking by squares is ranking by scores. */
  lemma SquaresKeepOrder(x: real, y: real)
    requires x >= 0.0 && y >= 0.0
    ensures x < y <==> x * x < y * y
    ensures x == y <==> x * x == y * y
  {
    assert y * y - x * x == (y - x) * (y + x);
    if x + y > 0.0 {
      SignOfProduct(y - x, y + x);
    }
  }

  /** The scoring loops, visiting each hash map in an arbitrary order. */
  method Cosine(a: seq<Token>, b: seq<Token>) returns (square: real)
    ensures square == CosineSq(a, b)
  {
    var countsA := CountTokens(a);
    var countsB := CountTokens(b);
    if countsA.Keys == {} || countsB.Keys == {} {
      assert a != [] ==> a[0] in ToSet(a);
      assert b != [] ==> b[0] in ToSet(b);
      return 0.0;
    }
    var dot := DotOfCounts(a, b, countsA, countsB);
    var normA := DotOfCounts(a, a, countsA, countsA);
    var normB := DotOfCounts(b, b, countsB, countsB);
    NormsPositive(a, b);
    if normA == 0 || normB == 0 {
      return 0.0;
    }
    square := Ratio(Square(dot), normA * normB);
  }

  /** One accumulating loop over the first map; `dot` and both norms are such loops. */
  method DotOfCounts(ghost a: seq<Token>, ghost b: seq<Token>, countsA: map<Token, nat>, countsB: map<Token, nat>)
    returns (dot: int)
    requires IsCountOf(countsA, a) && IsCountOf(countsB, b)
    ensures dot == Dot(a, b)
  {
    dot := 0;
    var todo := countsA.Keys;
    assert countsA.Keys - todo == {};
    while todo != {}
      invariant todo <= countsA.Keys
      invariant dot == Sum(countsA.Keys - todo, Product(a, b))
    {
      var t :| t in todo;
      var cb := if t in countsB then countsB[t] else 0;
      SumAdd(countsA.Keys - todo, Product(a, b), t);
      assert countsA.Keys - (todo - {t}) == countsA.Keys - todo + {t};
      assert cb == multiset(b)[t] && countsA[t] == multiset(a)[t];
      assert Product(a, b)(t) == countsA[t] * cb;
      dot := dot + countsA[t] * cb;
      todo := todo - {t};
    }
    assert countsA.Keys - todo == ToSet(a);
  }

  ghost predicate IsCountOf(counts: map<Token, nat>, ts: seq<Token>) {
    counts.Keys == ToSet(ts) && forall t :: t in counts ==> counts[t] == multiset(ts)[t]
  }

  method CountTokens(ts: seq<Token>) returns (counts: map<Token, nat>)
    ensures IsCountOf(counts, ts)
  {
    counts := map[];
    for i := 0 to |ts|
      invariant IsCountOf(counts, ts[..i])
    {
      assert ts[..i + 1] == ts[..i] + [ts[i]];
      counts := counts[ts[i] := (if ts[i] in counts then counts[ts[i]] else 0) + 1];
    }
    assert ts[..|ts|] == ts;
  }

  // ---------- Text ----------

  /** The Unicode tables the text functions consult. */
  datatype Text = Text(lower: string -> string, isAlnum: char -> bool, isSpace: char -> bool)

  function WordLength(isAlnum: char -> bool, s: string): (n: nat)
    ensures n <= |s| && forall i :: 0 <= i < n ==> isAlnum(s[i])
    ensures n < |s| ==> !isAlnum(s[n])
  {
    if s == "" || !isAlnum(s[0]) then 0 else 1 + WordLength(isAlnum, s[1..])
  }

  function Words(isAlnum: char -> bool, s: string): (ws: seq<Token>)
    ensures "" !in ws
    decreases |s|
  {
    if s == "" then []
    else if !isAlnum(s[0]) then Words(isAlnum, s[1..])
    else
      var n := WordLength(isAlnum, s);
      [s[..n]] + Words(isAlnum, s[n..])
  }

  predicate AllAlnum(isAlnum: char -> bool, s: string) {
    forall i :: 0 <= i < |s| ==> isAlnum(s[i])
  }

  /** A run of letters and digits is one word. */
  lemma {:induction false} RunIsOneWord(isAlnum: char -> bool, s: string)
    requires s != "" && AllAlnum(isAlnum, s)
    ensures Words(isAlnum, s) == [s]
  {
    assert WordLength(isAlnum, s) == |s|;
    assert s[..|s|] == s && s[|s|..] == "";
  }

  /** Any other character separates: the words are those before it and those behind it. */
  lemma {:induction false} WordsSplit(isAlnum: char -> bool, a: string, c: char, b: string)
    requires !isAlnum(c)
    ensures Words(isAlnum, a + [c] + b) == Words(isAlnum, a) + Words(isAlnum, b)
    decreases |a|
  {
    var s := a + [c] + b;
    if a == "" {
      assert s[1..] == b;
    } else if !isAlnum(a[0]) {
      assert s[1..] == a[1..] + [c] + b;
      WordsSplit(isAlnum, a[1..], c, b);
    } else {
      WordLengthInFront(isAlnum, a, s);
      WordsSplit(isAlnum, a[WordLength(isAlnum, a)..], c, b);
      WordInFront(isAlnum, a, s, a[WordLength(isAlnum, a)..] + [c] + b);
    }
  }

  lemma WordInFront(isAlnum: char -> bool, a: string, s: string, rest: string)
    requires a != "" && isAlnum(a[0]) && a <= s && WordLength(isAlnum, s) == WordLength(isAlnum, a)
    requires s[WordLength(isAlnum, a)..] == rest
    ensures Words(isAlnum, a) == [a[..WordLength(isAlnum, a)]] + Words(isAlnum, a[WordLength(isAlnum, a)..])
    ensures Words(isAlnum, s) == [a[..WordLength(isAlnum, a)]] + Words(isAlnum, rest)
  {
    var n := WordLength(isAlnum, a);
    assert s[..n] == a[..n];
  }

  lemma WordLengthInFront(isAlnum: char -> bool, a: string, s: string)
    requires a <= s && (|a| < |s| ==> !isAlnum(s[|a|]))
    ensures WordLength(isAlnum, s) == WordLength(isAlnum, a)
  {
    var m, n := WordLength(isAlnum, s), WordLength(isAlnum, a);
    assert forall i :: 0 <= i < |a| ==> s[i] == a[i];
  }

  function Tokens(tx: Text, s: string): seq<Token> {
    Words(tx.isAlnum, tx.lower(s))
  }

  function TrimStart(tx: Text, s: string): (r: string)
    ensures r != "" ==> !tx.isSpace(r[0])
  {
    if s != "" && tx.isSpace(s[0]) then TrimStart(tx, s[1..]) else s
  }

  function TrimEnd(tx: Text, s: string): string {
    if s != "" && tx.isSpace(s[|s| - 1]) then TrimEnd(tx, s[..|s| - 1]) else s
  }

  function Normal(tx: Text, s: string): string {
    tx.lower(TrimEnd(tx, TrimStart(tx, s)))
  }

  /** Normal text is without the blanks at both ends, all of them and nothing else, and in lower case. */
  lemma TrimsExactly(tx: Text, s: string) returns (i: nat, j: nat)
    ensures i <= j <= |s| && TrimEnd(tx, TrimStart(tx, s)) == s[i..j]
    ensures forall k :: 0 <= k < i || j <= k < |s| ==> tx.isSpace(s[k])
    ensures i < j ==> !tx.isSpace(s[i]) && !tx.isSpace(s[j - 1])
    ensures Normal(tx, s) == tx.lower(s[i..j])
  {
    i := TrimsStart(tx, s);
    var n := TrimsEnd(tx, s[i..]);
    j := i + n;
    assert s[i..][..n] == s[i..j];
    assert forall k :: i <= k < |s| ==> s[k] == s[i..][k - i];
  }

  lemma {:induction false} TrimsStart(tx: Text, s: string) returns (i: nat)
    ensures i <= |s| && TrimStart(tx, s) == s[i..]
    ensures forall k :: 0 <= k < i ==> tx.isSpace(s[k])
    ensures i < |s| ==> !tx.isSpace(s[i])
  {
    i := 0;
    if s != "" && tx.isSpace(s[0]) {
      var n := TrimsStart(tx, s[1..]);
      assert forall k :: 0 < k < n + 1 ==> s[k] == s[1..][k - 1];
      i := n + 1;
    }
  }

  lemma {:induction false} TrimsEnd(tx: Text, s: string) returns (j: nat)
    ensures j <= |s| && TrimEnd(tx, s) == s[..j]
    ensures forall k :: j <= k < |s| ==> tx.isSpace(s[k])
    ensures j > 0 ==> !tx.isSpace(s[j - 1])
  {
    j := |s|;
    if s != "" && tx.isSpace(s[|s| - 1]) {
      j := TrimsEnd(tx, s[..|s| - 1]);
    }
  }

  predicate Contains(s: string, part: string) {
    part <= s || (s != "" && Contains(s[1..], part))
  }

  /** A string contains what stands in it at some place. */
  lemma {:induction false} ContainsExactly(s: string, part: string)
    ensures Contains(s, part) <==> exists i {:trigger s[i..]} :: 0 <= i <= |s| && part <= s[i..]
  {
    if s == "" {
      assert s[0..] == s;
    } else {
      ContainsExactly(s[1..], part);
      assert s[0..] == s;
      if i :| 0 <= i <= |s[1..]| && part <= s[1..][i..] {
        assert s[1..][i..] == s[i + 1..];
      }
      if i :| 0 < i <= |s| && part <= s[i..] {
        assert s[1..][i - 1..] == s[i..];
      }
    }
  }

  // ---------- Skill affinity ----------

  datatype AgentSkill = AgentSkill(id: string, name: string, description: string)

  predicate IdMatch(tx: Text, required: string, skill: AgentSkill) {
    Normal(tx, required) != "" && Normal(tx, required) == Normal(tx, skill.id)
  }

  predicate NameMatch(tx: Text, required: string, skill: AgentSkill) {
    Normal(tx, required) != "" && Normal(tx, required) == Normal(tx, skill.name)
  }

  predicate PartMatch(tx: Text, required: string, skill: AgentSkill) {
    var r, id := Normal(tx, required), Normal(tx, skill.id);
    r != "" && id != "" && (Contains(id, r) || Contains(r, id))
  }

  function Haystack(skill: AgentSkill): string {
    skill.id + " " + skill.name + " " + skill.description
  }

  /** The square of the affinity score: the bands 1, 0.8, 0.7 and 0.6 * cosine. */
  ghost function AffinitySq(tx: Text, required: string, skill: AgentSkill): real {
    var r := Normal(tx, required);
    if r == "" then 0.0
    else
      var id := Normal(tx, skill.id);
      if r == id then 1.0
      else if r == Normal(tx, skill.name) then 0.64
      else if id != "" && (Contains(id, r) || Contains(r, id)) then 0.49
      else 0.36 * CosineSq(Tokens(tx, r), Tokens(tx, Haystack(skill)))
  }

  /**
   The bands never cross: each score identifies the kind of match behind it, and everything
   that is neither an id, a name nor a substring match stays at or below 0.6.
   */
  lemma AffinityBands(tx: Text, required: string, skill: AgentSkill)
    ensures var a := AffinitySq(tx, required, skill);
            && 0.0 <= a <= 1.0
            && (a == 1.0 <==> IdMatch(tx, required, skill))
            && (a == 0.64 <==> NameMatch(tx, required, skill) && !IdMatch(tx, required, skill))
            && (a == 0.49 <==> PartMatch(tx, required, skill) && !NameMatch(tx, required, skill)
                               && !IdMatch(tx, required, skill))
            && (a <= 0.36 <==> !IdMatch(tx, required, skill) && !NameMatch(tx, required, skill)
                               && !PartMatch(tx, required, skill))
  {
    CosineBounds(Tokens(tx, Normal(tx, required)), Tokens(tx, Haystack(skill)));
  }

  /** The token branch is documented to stay below 0.6; it reaches 0.6 exactly on proportional bags. */
  lemma TokenBranchReachesItsTop(tx: Text, required: string, skill: AgentSkill)
    requires !IdMatch(tx, required, skill) && !NameMatch(tx, required, skill) && !PartMatch(tx, required, skill)
    ensures var r, h := Tokens(tx, Normal(tx, required)), Tokens(tx, Haystack(skill));
            AffinitySq(tx, required, skill) == 0.36 <==>
            Normal(tx, required) != "" && r != [] && h != [] && Proportional(r, h)
  {
    CosineBounds(Tokens(tx, Normal(tx, required)), Tokens(tx, Haystack(skill)));
  }

  /** The tables lower text piece by piece and read a blank as no part of a word. */
  ghost predicate PieceByPiece(tx: Text) {
    && (forall a, b :: tx.lower(a + b) == tx.lower(a) + tx.lower(b))
    && tx.lower(" ") == " " && !tx.isAlnum(' ')
  }

  /** What the token branch compares with are the words of the id, the name and the description. */
  lemma HaystackWords(tx: Text, skill: AgentSkill)
    requires PieceByPiece(tx)
    ensures Tokens(tx, Haystack(skill)) ==
            Tokens(tx, skill.id) + Tokens(tx, skill.name) + Tokens(tx, skill.description)
  {
    var id, name, description := tx.lower(skill.id), tx.lower(skill.name), tx.lower(skill.description);
    assert tx.lower(Haystack(skill)) == id + " " + name + " " + description;
    WordsSplit(tx.isAlnum, id + " " + name, ' ', description);
    WordsSplit(tx.isAlnum, id, ' ', name);
  }

  /** The token branch scores above zero exactly when the request shares a word with id, name or description. */
  lemma TokenBranchSharesWord(tx: Text, required: string, skill: AgentSkill)
    requires PieceByPiece(tx)
    requires !IdMatch(tx, required, skill) && !NameMatch(tx, required, skill) && !PartMatch(tx, required, skill)
    ensures AffinitySq(tx, required, skill) > 0.0 <==>
            && Normal(tx, required) != ""
            && exists t :: t in Tokens(tx, Normal(tx, required)) &&
                 (t in Tokens(tx, skill.id) || t in Tokens(tx, skill.name) || t in Tokens(tx, skill.description))
  {
    HaystackWords(tx, skill);
    CosineBounds(Tokens(tx, Normal(tx, required)), Tokens(tx, Haystack(skill)));
  }

  /** Letters with a blank between each two. */
  function Spaced(letters: string): (r: string)
    ensures letters != "" ==> |r| == 2 * |letters| - 1 && r[0] == letters[0] && r[|r| - 1] == letters[|letters| - 1]
  {
    if |letters| <= 1 then letters else [letters[0]] + (" " + Spaced(letters[1..]))
  }

  function Singles(letters: string): (r: seq<Token>)
    ensures |r| == |letters| && forall i :: 0 <= i < |r| ==> r[i] == [letters[i]]
  {
    seq(|letters|, i requires 0 <= i < |letters| => [letters[i]])
  }

  lemma {:induction false} WordsOfSpaced(isAlnum: char -> bool, letters: string)
    requires (forall c :: c in letters ==> isAlnum(c)) && !isAlnum(' ')
    ensures Words(isAlnum, Spaced(letters)) == Singles(letters)
  {
    if |letters| == 1 {
      LastLetterWord(isAlnum, letters[0]);
      assert letters == [letters[0]] && Singles(letters) == [letters];
    } else if |letters| > 1 {
      WordsOfSpaced(isAlnum, letters[1..]);
      OneLetterWord(isAlnum, letters[0], Spaced(letters[1..]));
      assert Singles(letters) == [[letters[0]]] + Singles(letters[1..]);
    }
  }

  lemma OneLetterWord(isAlnum: char -> bool, c: char, rest: string)
    requires isAlnum(c) && !isAlnum(' ')
    ensures Words(isAlnum, [c] + (" " + rest)) == [[c]] + Words(isAlnum, rest)
  {
    var s := [c] + (" " + rest);
    assert s[1..] == " " + rest && (" " + rest)[1..] == rest && s[..1] == [c];
    assert WordLength(isAlnum, " " + rest) == 0;
  }

  lemma LastLetterWord(isAlnum: char -> bool, c: char)
    requires isAlnum(c)
    ensures Words(isAlnum, [c]) == [[c]]
  {
    assert [c][1..] == "" && [c][..1] == [c];
  }

  lemma LeadingBlank(isAlnum: char -> bool, s: string)
    requires !isAlnum(' ')
    ensures Words(isAlnum, " " + s) == Words(isAlnum, s)
  {
    assert (" " + s)[1..] == s;
  }

  lemma {:induction false} DistinctOnce(a: seq<Token>, t: Token)
    requires Distinct(a) && t in a
    ensures multiset(a)[t] == 1
  {
    var front, last := a[..|a| - 1], a[|a| - 1];
    assert a == front + [last];
    if t != last {
      DistinctOnce(front, t);
    } else {
      assert t !in front;
    }
  }

  /** The squared norm of different words is their number. */
  lemma DistinctNorm(a: seq<Token>)
    requires Distinct(a)
    ensures Dot(a, a) == |a|
  {
    forall t | t in ToSet(a)
      ensures Product(a, a)(t) == 1
    {
      DistinctOnce(a, t);
    }
    SumOfOnes(ToSet(a), Product(a, a));
    DistinctSize(a);
  }

  /** The tables read these letters, in lower case, as parts of words and a blank as none. */
  predicate ReadsLetters(tx: Text, letters: string) {
    && (forall s :: s in {"", letters[..Min(1, |letters|)], Spaced(letters), " " + Spaced(letters)} ==>
                      tx.lower(s) == s)
    && (forall c :: c in letters ==> tx.isAlnum(c) && !tx.isSpace(c))
    && !tx.isAlnum(' ')
  }

  lemma TopIsTokenBranch(tx: Text, required: string, skill: AgentSkill)
    requires Normal(tx, required) == required != Normal(tx, skill.name) && Normal(tx, skill.id) == "" != required
    requires Tokens(tx, required) == Tokens(tx, Haystack(skill)) != []
    ensures AffinitySq(tx, required, skill) == 0.36
  {
    CosineBounds(Tokens(tx, required), Tokens(tx, required));
  }

  lemma SpacedIsNormal(tx: Text, s: string)
    requires s != "" && !tx.isSpace(s[0]) && !tx.isSpace(s[|s| - 1]) && tx.lower(s) == s
    ensures Normal(tx, s) == s
  {
  }

  function TopSkill(letters: string): AgentSkill
    requires letters != ""
  {
    AgentSkill("", letters[..1], Spaced(letters[1..]))
  }

  lemma TopHaystack(letters: string)
    requires |letters| >= 2
    ensures Haystack(TopSkill(letters)) == " " + Spaced(letters)
  {
    Regroup(letters[..1], Spaced(letters[1..]));
    assert letters[..1] == [letters[0]];
  }

  lemma Regroup(name: string, description: string)
    ensures "" + " " + name + " " + description == " " + (name + (" " + description))
  {
  }

  lemma TopTokens(tx: Text, letters: string)
    requires |letters| >= 2 && ReadsLetters(tx, letters)
    ensures Tokens(tx, Spaced(letters)) == Singles(letters) == Tokens(tx, Haystack(TopSkill(letters)))
  {
    TopHaystack(letters);
    WordsOfSpaced(tx.isAlnum, letters);
    LeadingBlank(tx.isAlnum, Spaced(letters));
  }

  lemma EmptyIsNormal(tx: Text)
    requires tx.lower("") == ""
    ensures Normal(tx, "") == ""
  {
  }

  lemma TopIsNormal(tx: Text, letters: string)
    requires |letters| >= 2 && ReadsLetters(tx, letters)
    ensures Normal(tx, Spaced(letters)) == Spaced(letters)
    ensures Normal(tx, letters[..1]) == letters[..1]
  {
    SpacedIsNormal(tx, Spaced(letters));
    SpacedIsNormal(tx, letters[..1]);
  }

  /** Requests at the top of the token branch: letters against the first as name and the others as description. */
  lemma TopOfLetters(tx: Text, letters: string)
    requires |letters| >= 2 && Distinct(letters) && ReadsLetters(tx, letters)
    ensures AffinitySq(tx, Spaced(letters), TopSkill(letters)) == 0.36
    ensures var bag := Tokens(tx, Spaced(letters)); Dot(bag, bag) == |letters|
  {
    EmptyIsNormal(tx);
    TopIsNormal(tx, letters);
    TopTokens(tx, letters);
    DistinctNorm(Singles(letters));
    TopIsTokenBranch(tx, Spaced(letters), TopSkill(letters));
  }

  /**
   A concrete request at the top: "b c d e" against name "b", description "c d e", no id. Both squared norms are 4, so
   the roots, their product and the quotient that the code computes are exact in floating point, and the score is 0.6
   itself.
   */
  lemma TokenBranchTopExists(tx: Text)
    requires ReadsLetters(tx, "bcde")
    ensures AffinitySq(tx, Spaced("bcde"), TopSkill("bcde")) == 0.36
    ensures var bag := Tokens(tx, Spaced("bcde")); Dot(bag, bag) == 2 * 2
  {
    TopOfLetters(tx, "bcde");
  }

  method SkillAffinity(tx: Text, required: string, skill: AgentSkill) returns (square: real)
    ensures square == AffinitySq(tx, required, skill)
  {
    var r := Normal(tx, required);
    if r == "" {
      return 0.0;
    }
    var id := Normal(tx, skill.id);
    if r == id {
      return 1.0;
    }
    if r == Normal(tx, skill.name) {
      return 0.64;
    }
    if id != "" && (Contains(id, r) || Contains(r, id)) {
      return 0.49;
    }
    var c := Cosine(Tokens(tx, r), Tokens(tx, Haystack(skill)));
    square := 0.36 * c;
  }

  // ---------- Selecting a chain by affinity ----------

  type ChainName = string

  datatype AffinityRoute = AffinityRoute(skill: AgentSkill, chain: ChainName)

  datatype SkillAffinityError = NoMatch(skillId: string, best: real, min: real, considered: seq<string>)

  /** `score < min` for the score whose square is given. */
  predicate ScoreBelow(square: real, min: real) {
    min > 0.0 && square < min * min
  }

  ghost function Scores(tx: Text, skillId: string, routes: seq<AffinityRoute>): (scores: seq<real>)
    ensures |scores| == |routes|
  {
    seq(|routes|, i requires 0 <= i < |routes| => AffinitySq(tx, skillId, routes[i].skill))
  }

  /** The comparison of squares is the comparison of scores. */
  lemma ScoreBelowExactly(score: real, min: real)
    requires score >= 0.0
    ensures ScoreBelow(score * score, min) <==> score < min
  {
    if min > 0.0 {
      SquaresKeepOrder(score, min);
    } else {
      SquareSign(score);
    }
  }

  lemma ThresholdOfOne(min: real)
    ensures ScoreBelow(1.0, min) <==> min > 1.0
  {
  }

  /** `k` is the first position of the greatest score. */
  ghost predicate FirstMax(scores: seq<real>, k: nat) {
    && k < |scores|
    && (forall j :: 0 <= j < |scores| ==> scores[j] <= scores[k])
    && (forall j :: 0 <= j < k ==> scores[j] < scores[k])
  }

  datatype SkillAffinityRouter =
    SkillAffinityRouter(routes: seq<AffinityRoute>, minScore: real, fallback: Option<ChainName>)
  {
    /** What a request that clears no route is served with. */
    function ServeNone(skillId: string): Result<ChainName, SkillAffinityError> {
      match fallback
      case Some(chain) => Ok(chain)
      case None => Err(NoMatch(skillId, 0.0, minScore,
                                   seq(|routes|, i requires 0 <= i < |routes| => routes[i].skill.id)))
    }

    /** The route `k` of the greatest affinity, served if it clears the threshold. */
    ghost predicate Decided(scores: seq<real>, skillId: string, k: nat, r: Result<ChainName, SkillAffinityError>)
      requires |scores| == |routes|
    {
      && FirstMax(scores, k)
      && r == if ScoreBelow(scores[k], minScore) then ServeNone(skillId) else Ok(routes[k].chain)
    }

    /** The first route of the greatest affinity wins if that affinity clears the threshold. */
    method Select(tx: Text, skillId: string) returns (r: Result<ChainName, SkillAffinityError>)
      ensures routes == [] ==> r == ServeNone(skillId)
      ensures r.Ok? ==> fallback == Some(r.value) || exists k :: 0 <= k < |routes| && routes[k].chain == r.value
      ensures r.Err? ==> fallback.None? && r.error.skillId == skillId && r.error.best == 0.0 && r.error.min == minScore
      ensures r.Err? ==> |r.error.considered| == |routes|
      ensures r.Err? ==> forall i :: 0 <= i < |routes| ==> r.error.considered[i] == routes[i].skill.id
      ensures routes != [] ==> exists k :: Decided(Scores(tx, skillId, routes), skillId, k, r)
    {
      ghost var scores := Scores(tx, skillId, routes);
      var best := Best(tx, skillId, scores);
      match best
      case None => return ServeNone(skillId);
      case Some(b) =>
        r := if ScoreBelow(b.0, minScore) then ServeNone(skillId) else Ok(routes[b.1].chain);
        assert Decided(scores, skillId, b.1, r);
    }

    /** The scoring loop of `Select`: a later route replaces the best only with a strictly greater score. */
    method Best(tx: Text, skillId: string, ghost scores: seq<real>) returns (best: Option<(real, nat)>)
      requires |scores| == |routes|
      requires forall i {:trigger AffinitySq(tx, skillId, routes[i].skill)} ::
                 0 <= i < |routes| ==> scores[i] == AffinitySq(tx, skillId, routes[i].skill)
      ensures best.None? <==> routes == []
      ensures best.Some? ==> FirstMax(scores, best.value.1) && best.value.0 == scores[best.value.1]
    {
      best := None;
      for i := 0 to |routes|
        invariant best.None? <==> i == 0
        invariant best.Some? ==> best.value.1 < i && best.value.0 == scores[best.value.1]
        invariant best.Some? ==> forall j :: 0 <= j < i ==> scores[j] <= best.value.0
        invariant best.Some? ==> forall j :: 0 <= j < best.value.1 ==> scores[j] < best.value.0
      {
        var score := SkillAffinity(tx, skillId, routes[i].skill);
        if best.Some? && best.value.0 >= score {
        } else {
          best := Some((score, i));
        }
      }
    }

    /**
     Exact id matches always win while the threshold is at most 1: the route chosen is the first
     id match. Above 1 no route is ever chosen.
     */
    lemma IdMatchWins(tx: Text, skillId: string, m: nat)
      requires m < |routes| && IdMatch(tx, skillId, routes[m].skill)
      requires forall j :: 0 <= j < m ==> !IdMatch(tx, skillId, routes[j].skill)
      ensures var scores := Scores(tx, skillId, routes);
              && (forall k: nat :: FirstMax(scores, k) <==> k == m)
              && (ScoreBelow(scores[m], minScore) <==> minScore > 1.0)
    {
      var scores := Scores(tx, skillId, routes);
      forall j | 0 <= j < |routes|
        ensures scores[j] <= 1.0
        ensures scores[j] == 1.0 <==> IdMatch(tx, skillId, routes[j].skill)
      {
        AffinityBands(tx, skillId, routes[j].skill);
      }
      ThresholdOfOne(minScore);
      assert scores[m] == 1.0;
      forall k: nat | FirstMax(scores, k)
        ensures k == m
      {
        assert scores[m] <= scores[k];
      }
    }
  }

  // ---------- The vector cosine ----------

  datatype MathError = LengthMismatch(left: nat, right: nat)

  function Inner(a: seq<real>, b: seq<real>): real
    requires |a| == |b|
  {
    if a == [] then 0.0 else a[0] * b[0] + Inner(a[1..], b[1..])
  }

  const MIN_NORM := 0.00000001

  function Quotient(d: real, p: real, q: real): real
    requires p > 0.0 && q > 0.0
  {
    SignOfProduct(p, q);
    d / (p * q)
  }

  /** `normA` and `normB` stand for the square roots the code takes. */
  function CosineSimilarity(a: seq<real>, b: seq<real>, normA: real, normB: real): Result<real, MathError>
    requires normA >= 0.0 && normA * normA == Inner(a, a)
    requires normB >= 0.0 && normB * normB == Inner(b, b)
  {
    if |a| != |b| then Err(LengthMismatch(|a|, |b|))
    else if normA < MIN_NORM || normB < MIN_NORM then Ok(0.0)
    else Ok(Quotient(Inner(a, b), normA, normB))
  }

  function Combined(a: seq<real>, b: seq<real>, p: real, q: real): (r: real)
    requires |a| == |b|
    ensures r >= 0.0
  {
    if a == [] then 0.0
    else
      var x := a[0] * p - b[0] * q;
      SquareSign(x);
      x * x + Combined(a[1..], b[1..], p, q)
  }

  lemma {:induction false} CombinedExpands(a: seq<real>, b: seq<real>, p: real, q: real)
    requires |a| == |b|
    ensures Combined(a, b, p, q) == p * p * Inner(a, a) - 2.0 * (p * q * Inner(a, b)) + q * q * Inner(b, b)
  {
    if a != [] {
      CombinedExpands(a[1..], b[1..], p, q);
      ExpandSquare(a[0], b[0], p, q);
      Distribute(p * p, a[0] * a[0], Inner(a[1..], a[1..]));
      Distribute(p * q, a[0] * b[0], Inner(a[1..], b[1..]));
      Distribute(q * q, b[0] * b[0], Inner(b[1..], b[1..]));
    }
  }

  lemma Distribute(k: real, x: real, y: real)
    ensures k * (x + y) == k * x + k * y
  {
  }

  lemma ExpandSquare(x: real, y: real, p: real, q: real)
    ensures (x * p - y * q) * (x * p - y * q) == p * p * (x * x) - 2.0 * (p * q * (x * y)) + q * q * (y * y)
  {
  }

  /** What a non-negative residual says about `d * d` and `a * b`. */
  lemma Gap(a: real, b: real, d: real, residual: real)
    requires b > 0.0 && residual >= 0.0
    requires residual == b * b * a - 2.0 * (b * d * d) + d * d * b
    ensures d * d <= a * b
  {
  }

  /** Cauchy-Schwarz for vectors of reals. */
  lemma InnerCauchySchwarz(a: seq<real>, b: seq<real>)
    requires |a| == |b|
    ensures Inner(a, b) * Inner(a, b) <= Inner(a, a) * Inner(b, b)
  {
    ZeroVector(a, b);
    if Inner(b, b) > 0.0 {
      InnerGap(a, b, Inner(a, a), Inner(b, b), Inner(a, b));
    }
  }

  lemma {:induction false} ZeroVector(a: seq<real>, b: seq<real>)
    requires |a| == |b|
    ensures Inner(b, b) >= 0.0
    ensures Inner(b, b) == 0.0 ==> Inner(a, b) == 0.0
  {
    if b != [] {
      ZeroVector(a[1..], b[1..]);
      SquareSign(b[0]);
      ZeroSquare(a[0], b[0]);
    }
  }

  lemma ZeroSquare(x: real, y: real)
    ensures y * y == 0.0 ==> x * y == 0.0
  {
    if y > 0.0 {
      SignOfProduct(y, y);
    } else if y < 0.0 {
      SignOfProduct(-y, -y);
    }
  }

  lemma InnerGap(a: seq<real>, b: seq<real>, A: real, B: real, D: real)
    requires |a| == |b| && A == Inner(a, a) && B == Inner(b, b) > 0.0 && D == Inner(a, b)
    ensures D * D <= A * B
  {
    var residual := InnerResidual(a, b, A, B, D);
    Gap(A, B, D, residual);
  }

  lemma InnerResidual(a: seq<real>, b: seq<real>, A: real, B: real, D: real) returns (residual: real)
    requires |a| == |b| && A == Inner(a, a) && B == Inner(b, b) && D == Inner(a, b)
    ensures residual >= 0.0
    ensures residual == B * B * A - 2.0 * (B * D * D) + D * D * B
  {
    CombinedExpands(a, b, B, D);
    residual := Combined(a, b, B, D);
  }

  /** A length mismatch is the only error, every similarity is in [-1, 1], and a vector is fully similar to itself. */
  lemma SimilarityBounds(a: seq<real>, b: seq<real>, normA: real, normB: real)
    requires normA >= 0.0 && normA * normA == Inner(a, a)
    requires normB >= 0.0 && normB * normB == Inner(b, b)
    ensures var r := CosineSimilarity(a, b, normA, normB);
            && (r.Err? <==> |a| != |b|)
            && (r.Ok? ==> -1.0 <= r.value <= 1.0)
            && (a == b && normA == normB >= MIN_NORM ==> r == Ok(1.0))
  {
    if |a| == |b| && normA >= MIN_NORM && normB >= MIN_NORM {
      InnerCauchySchwarz(a, b);
      QuotientByNorms(Inner(a, b), normA, normB, Inner(a, a), Inner(b, b));
      assert CosineSimilarity(a, b, normA, normB) == Ok(Quotient(Inner(a, b), normA, normB));
    }
  }

  /** Times the two norms a similarity is the inner product; short vectors are similar to nothing. */
  lemma SimilarityTimesNorms(a: seq<real>, b: seq<real>, normA: real, normB: real)
    requires |a| == |b| && normA >= 0.0 && normA * normA == Inner(a, a)
    requires normB >= 0.0 && normB * normB == Inner(b, b)
    ensures var r := CosineSimilarity(a, b, normA, normB);
            && r.Ok?
            && (normA >= 0.00000001 && normB >= 0.00000001 ==> r.value * (normA * normB) == Inner(a, b))
            && (normA < 0.00000001 || normB < 0.00000001 ==> r.value == 0.0)
  {
    if normA >= MIN_NORM && normB >= MIN_NORM {
      QuotientTimes(Inner(a, b), normA, normB);
    }
  }

  lemma QuotientTimes(d: real, p: real, q: real)
    requires p > 0.0 && q > 0.0
    ensures Quotient(d, p, q) * (p * q) == d
  {
    SignOfProduct(p, q);
    DivideTimes(d, p * q);
  }

  lemma DivideTimes(d: real, n: real)
    requires n > 0.0
    ensures d / n * n == d
  {
  }

  /** The inner product adds up over the parts of its vectors. */
  lemma {:induction false} InnerOfParts(a: seq<real>, b: seq<real>, c: seq<real>, d: seq<real>)
    requires |a| == |b| && |c| == |d|
    ensures Inner(a + c, b + d) == Inner(a, b) + Inner(c, d)
    ensures forall x, y :: Inner([x], [y]) == x * y
  {
    forall x, y
      ensures Inner([x], [y]) == x * y
    {
      assert [x][1..] == [] && [y][1..] == [];
    }
    if a == [] {
      assert a + c == c && b + d == d;
    } else {
      InnerOfParts(a[1..], b[1..], c, d);
      assert (a + c)[1..] == a[1..] + c && (b + d)[1..] == b[1..] + d;
    }
  }

  lemma QuotientByNorms(d: real, p: real, q: real, pp: real, qq: real)
    requires p > 0.0 && q > 0.0 && p * p == pp && q * q == qq && d * d <= pp * qq
    ensures -1.0 <= Quotient(d, p, q) <= 1.0
    ensures p == q && d == pp ==> Quotient(d, p, q) == 1.0
  {
    SignOfProduct(p, q);
    var n := p * q;
    assert n * n == pp * qq by {
      RegroupSquares(p, q);
    }
    QuotientInUnit(d, n);
  }

  lemma QuotientInUnit(d: real, n: real)
    requires n > 0.0 && d * d <= n * n
    ensures -1.0 <= d / n <= 1.0
    ensures d == n ==> d / n == 1.0
  {
    var c := d / n;
    assert c * n == d;
    if d > n {
      SquaresKeepOrder(n, d);
    } else if -d > n {
      SquaresKeepOrder(n, -d);
    }
    assert (1.0 - c) * n == n - d && (c + 1.0) * n == d + n;
    SignOfProduct(1.0 - c, n);
    SignOfProduct(c + 1.0, n);
  }
}
