/** The <app>.<env> alias scheme (`aliasTarget`): a rewriting of dotted strings that refines one of label lists. */
module DnsAlias {
  import opened Octets
  import opened Wrappers
  import opened DnsQuestion

  /** `aliasTarget`; an empty suffix turns the feature off. */
  function AliasTarget(name: Bytes, suffix: Bytes, internal: Bytes): (r: Option<Bytes>) {
    if suffix == [] then None
    else
      var dotted := [DOT] + suffix;
      if |name| < |dotted| || name[|name| - |dotted|..] != dotted then None
      else
        var short := name[..|name| - |dotted|];
        if short == [] then None
        else if internal != [] then Some(short + [DOT] + internal)
        else Some(short)
  }

  predicate DotFree(l: Bytes) {
    forall k :: 0 <= k < |l| ==> l[k] != DOT
  }

  predicate AllDotFree(ls: seq<Bytes>) {
    forall i :: 0 <= i < |ls| ==> DotFree(ls[i])
  }

  predicate NoneEmpty(ls: seq<Bytes>) {
    forall i :: 0 <= i < |ls| ==> ls[i] != []
  }

  /** The labels of a dotted string. */
  function Split(s: Bytes): (ls: seq<Bytes>)
    ensures ls != [] && AllDotFree(ls)
  {
    if s == [] then [[]]
    else
      var n := |s| - 1;
      var init := Split(s[..n]);
      if s[n] == DOT then init + [[]]
      else init[..|init| - 1] + [init[|init| - 1] + [s[n]]]
  }

  lemma {:induction false} JoinSplit(s: Bytes)
    ensures Join(Split(s)) == s
  {
    if s == [] {
    } else {
      var n := |s| - 1;
      var init := Split(s[..n]);
      JoinSplit(s[..n]);
      assert s == s[..n] + [s[n]];
      hide Join;
      if s[n] == DOT {
        JoinSnoc(init, []);
        assert s == Join(init) + [DOT] + [];
      } else {
        JoinExtend(init, s[n]);
      }
    }
  }

  /** A byte put at the end of the last label is put at the end of the string. */
  lemma {:induction false} JoinExtend(ls: seq<Bytes>, b: byte)
    requires ls != []
    ensures Join(ls[..|ls| - 1] + [ls[|ls| - 1] + [b]]) == Join(ls) + [b]
  {
    hide Join;
    var front, last := ls[..|ls| - 1], ls[|ls| - 1];
    assert ls == front + [last];
    JoinSnoc(front, last);
    JoinSnoc(front, last + [b]);
    ConcatAssoc(Join(front) + [DOT], last, [b]);
  }

  /** Joining is concatenation with a dot between. */
  lemma {:induction false} JoinConcat(a: seq<Bytes>, b: seq<Bytes>)
    requires a != [] && b != []
    ensures Join(a + b) == Join(a) + [DOT] + Join(b)
  {
    var n := |b| - 1;
    assert b == b[..n] + [b[n]];
    assert a + b == (a + b[..n]) + [b[n]];
    JoinSnoc(a + b[..n], b[n]);
    JoinSnoc(b[..n], b[n]);
    if n > 0 {
      JoinConcat(a, b[..n]);
      ConcatAssoc(Join(a) + [DOT], Join(b[..n]), [DOT] + b[n]);
      ConcatAssoc(Join(b[..n]), [DOT], b[n]);
      ConcatAssoc(Join(a) + [DOT] + Join(b[..n]), [DOT], b[n]);
    } else {
      assert a + b[..n] == a;
    }
  }

  /** Two strings cut at their last dot agree on both sides of it. */
  lemma {:induction false} LastDot(x: Bytes, l: Bytes, y: Bytes, m: Bytes)
    requires DotFree(l) && DotFree(m) && x + [DOT] + l == y + [DOT] + m
    ensures x == y && l == m
  {
    var s := x + [DOT] + l;
    LastDotAt(x, l);
    LastDotAt(y, m);
    assert |x| == |y|;
    assert x == s[..|x|] && l == s[|x| + 1..];
    assert y == s[..|y|] && m == s[|y| + 1..];
  }

  lemma {:induction false} LastDotAt(x: Bytes, l: Bytes)
    requires DotFree(l)
    ensures var s := x + [DOT] + l;
            s[|x|] == DOT && forall k :: |x| < k < |s| ==> s[k] != DOT
  {
    var s := x + [DOT] + l;
    forall k | |x| < k < |s|
      ensures s[k] != DOT
    {
      assert s[k] == l[k - |x| - 1];
    }
  }

  lemma {:induction false} JoinHasDot(ls: seq<Bytes>)
    requires |ls| > 1
    ensures !DotFree(Join(ls))
  {
    var n := |ls| - 1;
    assert Join(ls)[|Join(ls[..n])|] == DOT;
  }

  /** The dotted form determines the labels. */
  lemma {:induction false} JoinInjective(a: seq<Bytes>, b: seq<Bytes>)
    requires a != [] && b != [] && AllDotFree(a) && AllDotFree(b) && Join(a) == Join(b)
    ensures a == b
  {
    if |a| == 1 || |b| == 1 {
      if |a| > 1 {
        JoinHasDot(a);
      } else if |b| > 1 {
        JoinHasDot(b);
      }
    } else {
      var n, m := |a| - 1, |b| - 1;
      LastDot(Join(a[..n]), a[n], Join(b[..m]), b[m]);
      JoinInjective(a[..n], b[..m]);
      assert a == a[..n] + [a[n]] && b == b[..m] + [b[m]];
    }
  }

  /** What the rewriting means on labels: a non-empty prefix before the alias labels, then the internal ones. */
  function AliasLabels(ls: seq<Bytes>, alias: seq<Bytes>, internal: seq<Bytes>): Option<seq<Bytes>> {
    var n := |ls| - |alias|;
    if n > 0 && ls[n..] == alias then Some(ls[..n] + internal) else None
  }

  /** The string form rewrites these labels as the label form does. */
  predicate Agrees(ls: seq<Bytes>, alias: seq<Bytes>, internal: seq<Bytes>) {
    AliasTarget(Join(ls), Join(alias), Join(internal)) ==
      match AliasLabels(ls, alias, internal) case Some(t) => Some(Join(t)) case None => None
  }

  /** Split at its dots, the name ends with the alias labels after something. */
  predicate SeemsAliased(name: Bytes, alias: seq<Bytes>) {
    var ps := Split(name);
    var n := |ps| - |alias|;
    n > 0 && ps[n..] == alias && Join(ps[..n]) != []
  }

  /** What the string form does to any name at all. */
  lemma {:induction false} AliasOnAnyName(name: Bytes, alias: seq<Bytes>, internal: seq<Bytes>)
    requires alias != [] && AllDotFree(alias) && Join(alias) != []
    requires internal == [] || Join(internal) != []
    ensures var ps := Split(name);
            var n := |ps| - |alias|;
            AliasTarget(name, Join(alias), Join(internal)) ==
              if SeemsAliased(name, alias) then Some(Join(ps[..n] + internal)) else None
  {
    var ps := Split(name);
    var n := |ps| - |alias|;
    JoinSplit(name);
    hide Split, Join;
    if n > 0 && ps[n..] == alias {
      assert ps == ps[..n] + alias;
      if Join(ps[..n]) != [] {
        AliasHits(ps[..n], alias, internal);
      } else {
        AliasNothingBefore(ps[..n], alias, Join(internal));
      }
    } else {
      AliasMisses(ps, alias, Join(internal));
    }
  }

  lemma {:induction false} AliasNothingBefore(p: seq<Bytes>, alias: seq<Bytes>, internal: Bytes)
    requires p != [] && alias != [] && Join(p) == []
    ensures AliasTarget(Join(p + alias), Join(alias), internal) == None
  {
    JoinConcat(p, alias);
    assert Join(p + alias) == [DOT] + Join(alias);
  }

  /**
    For all labels the question parser can return: the string form does the label
    rewriting if and only if the labels end with the alias, or the joined name does
    not seem to. A label that contains a dot is the only way to seem to.
   */
  lemma {:induction false} AliasAgreesIff(ls: seq<Bytes>, alias: seq<Bytes>, internal: seq<Bytes>)
    requires NoneEmpty(ls) && alias != [] && AllDotFree(alias) && Join(alias) != []
    requires internal == [] || Join(internal) != []
    ensures Agrees(ls, alias, internal) <==> AliasLabels(ls, alias, internal).Some? || !SeemsAliased(Join(ls), alias)
  {
    var n := |ls| - |alias|;
    AliasOnAnyName(Join(ls), alias, internal);
    hide SeemsAliased, Split, Join;
    if AliasLabels(ls, alias, internal).Some? {
      JoinNonEmpty(ls[..n]);
      AliasHits(ls[..n], alias, internal);
      assert ls == ls[..n] + alias;
    }
  }

  /** In particular they always agree on dot-free labels. */
  lemma {:induction false} AliasRefinesLabels(ls: seq<Bytes>, alias: seq<Bytes>, internal: seq<Bytes>)
    requires AllDotFree(ls) && NoneEmpty(ls)
    requires alias != [] && AllDotFree(alias) && Join(alias) != []
    requires internal == [] || Join(internal) != []
    ensures Agrees(ls, alias, internal)
  {
    AliasAgreesIff(ls, alias, internal);
    hide Agrees, Join;
    JoinSplit(Join(ls));
    if ls == [] {
      NothingSeemsAliased(alias);
    } else {
      JoinInjective(Split(Join(ls)), ls);
    }
  }

  lemma {:induction false} NothingSeemsAliased(alias: seq<Bytes>)
    requires alias != []
    ensures !SeemsAliased(Join([]), alias)
  {
  }

  lemma {:induction false} AliasHits(p: seq<Bytes>, alias: seq<Bytes>, internal: seq<Bytes>)
    requires p != [] && Join(p) != [] && alias != [] && Join(alias) != []
    requires internal == [] || Join(internal) != []
    ensures AliasTarget(Join(p + alias), Join(alias), Join(internal)) == Some(Join(p + internal))
  {
    JoinConcat(p, alias);
    var name, dotted := Join(p + alias), [DOT] + Join(alias);
    ConcatAssoc(Join(p), [DOT], Join(alias));
    assert name == Join(p) + dotted;
    assert name[..|Join(p)|] == Join(p) && name[|Join(p)|..] == dotted;
    if internal == [] {
      assert p + internal == p;
    } else {
      JoinConcat(p, internal);
    }
  }

  lemma {:induction false} JoinNonEmpty(p: seq<Bytes>)
    requires p != [] && NoneEmpty(p)
    ensures Join(p) != []
  {
    assert p[|p| - 1] != [];
  }

  lemma {:induction false} AliasMisses(ls: seq<Bytes>, alias: seq<Bytes>, internal: Bytes)
    requires AllDotFree(ls) && alias != [] && AllDotFree(alias)
    requires !(|ls| > |alias| && ls[|ls| - |alias|..] == alias)
    ensures AliasTarget(Join(ls), Join(alias), internal) == None
  {
    if AliasTarget(Join(ls), Join(alias), internal).Some? {
      AliasHitMeans(ls, alias, internal);
    }
  }

  /** A string that is rewritten ends with the alias labels, after at least one other. */
  lemma {:induction false} AliasHitMeans(ls: seq<Bytes>, alias: seq<Bytes>, internal: Bytes)
    requires AllDotFree(ls) && alias != [] && AllDotFree(alias)
    requires AliasTarget(Join(ls), Join(alias), internal).Some?
    ensures |ls| > |alias| && ls[|ls| - |alias|..] == alias
  {
    hide *;
    var short := AliasParts(Join(ls), Join(alias), internal);
    var p := Split(short);
    JoinSplit(short);
    JoinConcat(p, alias);
    ConcatAssoc(short, [DOT], Join(alias));
    NoLabels(ls);
    DotFreeConcat(p, alias);
    JoinInjective(ls, p + alias);
    assert |ls| - |alias| == |p| && (p + alias)[|p|..] == alias;
  }

  /** A rewritten name is something, a dot and the suffix. */
  lemma {:induction false} AliasParts(name: Bytes, suffix: Bytes, internal: Bytes) returns (short: Bytes)
    requires AliasTarget(name, suffix, internal).Some?
    ensures name == short + ([DOT] + suffix) && short != []
    ensures AliasTarget(name, suffix, internal).value == if internal != [] then short + [DOT] + internal else short
  {
    short := name[..|name| - |[DOT] + suffix|];
  }

  lemma {:induction false} DotFreeConcat(a: seq<Bytes>, b: seq<Bytes>)
    requires AllDotFree(a) && AllDotFree(b)
    ensures AllDotFree(a + b)
  {
    hide DotFree;
  }

  lemma {:induction false} NoLabels(ls: seq<Bytes>)
    ensures Join(ls) != [] ==> ls != []
  {
  }

  /** For a fixed configuration no two names share a target. */
  lemma {:induction false} AliasInjective(a: Bytes, b: Bytes, suffix: Bytes, internal: Bytes, target: Bytes)
    requires AliasTarget(a, suffix, internal) == Some(target) && AliasTarget(b, suffix, internal) == Some(target)
    ensures a == b
  {
    var sa := AliasParts(a, suffix, internal);
    var sb := AliasParts(b, suffix, internal);
    hide AliasTarget;
    if internal != [] {
      assert sa == target[..|sa|] && sb == target[..|sb|] && |sa| == |sb|;
    }
  }

  /** Without dot-freeness it fails: one label "a.b" under the alias "b" is rewritten although no label is "b". */
  lemma {:induction false} DottedLabelIsMistaken()
    ensures AreLabels([[97, DOT, 98]])
    ensures AliasTarget(Join([[97, DOT, 98]]), Join([[98]]), []) == Some([97])
    ensures AliasLabels([[97, DOT, 98]], [[98]], []) == None
  {
    var name: Bytes := [97, DOT, 98];
    assert Join([name]) == name && Join([[98]]) == [98];
    assert name[1..] == [DOT] + [98] && name[..1] == [97];
  }

  /** Lower case commutes with joining, so the parser's name is the joined lower-case labels. */
  lemma {:induction false} LowerJoin(ls: seq<Bytes>)
    ensures Lower(Join(ls)) == Join(LowerAll(ls))
  {
    if |ls| > 1 {
      var n := |ls| - 1;
      LowerJoin(ls[..n]);
      assert LowerAll(ls)[..n] == LowerAll(ls[..n]);
      LowerConcat(Join(ls[..n]) + [DOT], ls[n]);
      LowerConcat(Join(ls[..n]), [DOT]);
      assert Lower([DOT]) == [DOT];
    }
  }

  function LowerAll(ls: seq<Bytes>): (r: seq<Bytes>)
    ensures |r| == |ls| && forall i :: 0 <= i < |ls| ==> r[i] == Lower(ls[i])
  {
    seq(|ls|, i requires 0 <= i < |ls| => Lower(ls[i]))
  }

  lemma {:induction false} LowerConcat(a: Bytes, b: Bytes)
    ensures Lower(a + b) == Lower(a) + Lower(b)
  {
  }
}
