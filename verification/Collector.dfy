/**
 The collector's door, `validate` of server/commons.py, on the patterns of a contribution.
 */
module Collector {
  import opened Wrappers
  import opened CommonsTokens
  import opened Wilson
  import opened Contribution

  const MAX_COUNT := 10_000_000

  datatype Offered = Offered(antecedent: string, consequent: string, support: int, refute: int, subjects: int, base: Option<real>)

  datatype Reason = TooMany | NotShort | Names | Outside(word: string) | CountsOutOfRange | NoBase | NotARate

  datatype Verdict = Refused(why: Reason) | Skipped | Kept

  predicate Short(t: string) {
    t != "" && |t| <= MAX_TOKEN_LEN
  }

  function Judge(lexicon: Lexicon, root: Root, p: Offered): Verdict {
    var a, c := p.antecedent, p.consequent;
    if !Short(a) || !Short(c) then Refused(NotShort)
    else if Identifying(a) || Identifying(c) then Refused(Names)
    else if ForeignWord(lexicon, a).Some? then Refused(Outside(ForeignWord(lexicon, a).value))
    else if ForeignWord(lexicon, c).Some? then Refused(Outside(ForeignWord(lexicon, c).value))
    else JudgeCounts(root, p)
  }

  function JudgeCounts(root: Root, p: Offered): Verdict {
    var s, r := p.support, p.refute;
    if s < 0 || r < 0 || p.subjects < 0 || s + r > MAX_COUNT then Refused(CountsOutOfRange)
    else if s < PRIOR_FLOOR_N then Skipped
    else if p.base.None? then Refused(NoBase)
    else if !(0.0 <= p.base.value <= 1.0) then Refused(NotARate)
    else if Rate(s, s + r) < PRIOR_MIN_RATE then Skipped
    else if WilsonLower(root, s, s + r) < p.base.value + PRIOR_MIN_LIFT then Skipped
    else Kept
  }

  /** One refusal refuses the contribution; what is not a pattern is passed over. */
  function Clean(lexicon: Lexicon, root: Root, ps: seq<Offered>): Result<seq<Offered>, Reason> {
    if ps == [] then Ok([])
    else
      var before :- Clean(lexicon, root, ps[..|ps| - 1]);
      match Judge(lexicon, root, ps[|ps| - 1])
      case Refused(why) => Err(why)
      case Skipped => Ok(before)
      case Kept => Ok(before + [ps[|ps| - 1]])
  }

  function Door(lexicon: Lexicon, root: Root, ps: seq<Offered>): Result<seq<Offered>, Reason> {
    if |ps| > MAX_PATTERNS then Err(TooMany) else Clean(lexicon, root, ps)
  }

  method Validate(lexicon: Lexicon, root: Root, ps: seq<Offered>) returns (r: Result<seq<Offered>, Reason>)
    ensures r == Door(lexicon, root, ps)
  {
    if |ps| > MAX_PATTERNS {
      return Err(TooMany);
    }
    var clean := [];
    for i := 0 to |ps|
      invariant Clean(lexicon, root, ps[..i]) == Ok(clean)
    {
      assert ps[..i + 1][..i] == ps[..i];
      var verdict := Judge(lexicon, root, ps[i]);
      if verdict.Refused? {
        RefusedStays(lexicon, root, ps, i + 1, verdict.why);
        return Err(verdict.why);
      }
      if verdict.Skipped? {
        continue;
      }
      clean := clean + [ps[i]];
    }
    assert ps[..|ps|] == ps;
    return Ok(clean);
  }

  lemma {:induction false} RefusedStays(lexicon: Lexicon, root: Root, ps: seq<Offered>, i: nat, why: Reason)
    requires i <= |ps| && Clean(lexicon, root, ps[..i]) == Err(why)
    ensures Clean(lexicon, root, ps) == Err(why)
  {
    hide Judge;
    if i < |ps| {
      assert ps[..|ps| - 1][..i] == ps[..i];
      RefusedStays(lexicon, root, ps[..|ps| - 1], i, why);
    } else {
      assert ps[..i] == ps;
    }
  }

  // ---------------------------------------------------------------- what passes, and all that passes

  function KeptOf(lexicon: Lexicon, root: Root, ps: seq<Offered>): seq<Offered> {
    if ps == [] then []
    else KeptOf(lexicon, root, ps[..|ps| - 1]) + if Judge(lexicon, root, ps[|ps| - 1]) == Kept then [ps[|ps| - 1]] else []
  }

  /** A contribution is let in exactly when it is short enough and holds nothing to refuse. */
  lemma {:induction false} LetInIff(lexicon: Lexicon, root: Root, ps: seq<Offered>)
    ensures Clean(lexicon, root, ps).Ok? <==> forall p :: p in ps ==> !Judge(lexicon, root, p).Refused?
    ensures Clean(lexicon, root, ps).Ok? ==> Clean(lexicon, root, ps).value == KeptOf(lexicon, root, ps)
    ensures Door(lexicon, root, ps) == if |ps| > 500 then Err(TooMany) else Clean(lexicon, root, ps)
  {
    hide Judge;
    if ps != [] {
      LetInIff(lexicon, root, ps[..|ps| - 1]);
      assert forall p :: p in ps <==> p in ps[..|ps| - 1] || p == ps[|ps| - 1];
    }
  }

  /** What is refused, what is kept, and what is passed over as neither. */
  lemma JudgedIff(lexicon: Lexicon, root: Root, p: Offered)
    ensures var s, r := p.support, p.refute;
            var fit := Allowed(lexicon, p.antecedent) && Allowed(lexicon, p.consequent) && s >= 0 && r >= 0 && p.subjects >= 0 && s + r <= 10_000_000;
            var based := p.base.Some? && 0.0 <= p.base.value <= 1.0;
            && (Judge(lexicon, root, p).Refused? <==> !fit || (s >= 3 && !based))
            && (Judge(lexicon, root, p) == Kept <==>
                && fit && s >= 3 && based
                && s as real / (s + r) as real >= 0.6 && WilsonLower(root, s, s + r) >= p.base.value + 0.1)
  {
    hide Identifying, ForeignWord, WilsonLower;
  }

  /** What is let in is built from the vocabulary and beats its consequent's own popularity. */
  lemma KeptMeans(lexicon: Lexicon, root: Root, p: Offered)
    requires SquareRoot(root) && Judge(lexicon, root, p) == Kept
    ensures Allowed(lexicon, p.antecedent) && Allowed(lexicon, p.consequent)
    ensures p.support >= 3 && p.refute >= 0 && p.base.Some?
    ensures p.support as real / (p.support + p.refute) as real >= 0.6
    ensures p.support as real / (p.support + p.refute) as real >= p.base.value + 0.1
  {
    hide Identifying, ForeignWord, WilsonLower, SquareRoot;
    LiftIsReal(root, p.support, p.support + p.refute, p.base.value + PRIOR_MIN_LIFT);
  }
}
