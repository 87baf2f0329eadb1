/** The fragment of Ruby regular expressions the engine's patterns use:
    the anchors `\A` and `\z`, literal characters and character classes,
    combined by alternation (`|`, `Regexp.union`). `Search` is the meaning of
    `=~` and `Regexp#match`: some alternative matches starting at some
    position of the text. */
module Regex {

  datatype Atom =
    | Start               // \A
    | End                 // \z
    | Lit(c: char)        // a literal character
    | OneOf(cs: set<char>) // a character class such as [.#]

  type Pattern = seq<Atom>

  /** Does `p` match `t` starting at position `k`? */
  function MatchAt(p: Pattern, t: string, k: nat): bool
    requires k <= |t|
    decreases |p|
  {
    if p == [] then true
    else match p[0]
      case Start => k == 0 && MatchAt(p[1..], t, k)
      case End => k == |t| && MatchAt(p[1..], t, k)
      case Lit(c) => k < |t| && t[k] == c && MatchAt(p[1..], t, k + 1)
      case OneOf(cs) => k < |t| && t[k] in cs && MatchAt(p[1..], t, k + 1)
  }

  /** `alternatives =~ t`: some alternative matches at some position. */
  predicate Search(alternatives: seq<Pattern>, t: string)
  {
    exists i, k :: 0 <= i < |alternatives| && 0 <= k <= |t| && MatchAt(alternatives[i], t, k)
  }

  /** The pattern made of the characters of `s` taken literally, which is what
      interpolating `s` into a regexp literal gives when `s` holds no
      metacharacter. */
  function Lits(s: string): (p: Pattern)
    ensures |p| == |s|
  {
    if s == [] then [] else [Lit(s[0])] + Lits(s[1..])
  }

  /** The text spells out `s` starting at position `k`. */
  predicate SpellsAt(t: string, s: string, k: nat)
  {
    k + |s| <= |t| && t[k..k + |s|] == s
  }

  lemma SpellsAtCons(t: string, s: string, k: nat)
    requires s != []
    ensures SpellsAt(t, s, k) <==> k < |t| && t[k] == s[0] && SpellsAt(t, s[1..], k + 1)
  {
    if k + |s| <= |t| {
      assert t[k..k + |s|] == [t[k]] + t[k + 1..k + 1 + |s[1..]|];
    }
  }

  lemma LitsCons(s: string, rest: Pattern)
    requires s != []
    ensures (Lits(s) + rest)[0] == Lit(s[0])
    ensures (Lits(s) + rest)[1..] == Lits(s[1..]) + rest
  {
    assert Lits(s) + rest == [Lit(s[0])] + (Lits(s[1..]) + rest);
  }

  lemma MatchAtLit(p: Pattern, t: string, k: nat)
    requires k <= |t| && p != [] && p[0].Lit?
    ensures MatchAt(p, t, k) == (k < |t| && t[k] == p[0].c && MatchAt(p[1..], t, k + 1))
  {
  }

  /** A literal run matches exactly where the text spells it out. */
  lemma {:induction false} MatchLits(s: string, rest: Pattern, t: string, k: nat)
    requires k <= |t|
    ensures MatchAt(Lits(s) + rest, t, k) <==> SpellsAt(t, s, k) && MatchAt(rest, t, k + |s|)
  {
    if s == [] {
      assert Lits(s) + rest == rest;
    } else {
      LitsCons(s, rest);
      MatchAtLit(Lits(s) + rest, t, k);
      SpellsAtCons(t, s, k);
      if k < |t| {
        MatchLits(s[1..], rest, t, k + 1);
      }
    }
  }

  /** A pattern anchored with `\A` can only match at position 0. */
  lemma AnchoredSearch(alternatives: seq<Pattern>, t: string)
    requires forall i :: 0 <= i < |alternatives| ==> |alternatives[i]| > 0 && alternatives[i][0] == Start
    ensures Search(alternatives, t) <==>
            exists i :: 0 <= i < |alternatives| && MatchAt(alternatives[i][1..], t, 0)
  {
    if Search(alternatives, t) {
      var i, k :| 0 <= i < |alternatives| && 0 <= k <= |t| && MatchAt(alternatives[i], t, k);
      assert MatchAt(alternatives[i][1..], t, 0);
    }
    if exists i :: 0 <= i < |alternatives| && MatchAt(alternatives[i][1..], t, 0) {
      var i :| 0 <= i < |alternatives| && MatchAt(alternatives[i][1..], t, 0);
      assert MatchAt(alternatives[i], t, 0);
    }
  }

  predicate StartsWith(t: string, prefix: string)
  {
    |prefix| <= |t| && t[..|prefix|] == prefix
  }

  predicate Contains(t: string, s: string)
  {
    exists k: nat :: k <= |t| && SpellsAt(t, s, k)
  }
}
