/** Names for rules made from captures (src/lib/rule-names.ts) and the batch that asks for
    them (src/views/CapturesView.tsx, `addRulesFor`). */
module RuleNames {
  import opened Decimal
  import opened Text

  const RULE_NAME_MAX: nat := 120

  function Suffix(n: nat): string {
    " (" + Dec(n) + ")"
  }

  /** `s.slice(0, k)`: a negative bound counts from the end. */
  function SliceTo(s: string, k: int): string {
    var stop := if k < 0 then |s| + k else k;
    if stop < 0 then "" else if stop > |s| then s else s[..stop]
  }

  function Candidate(name: string, n: nat): string {
    SliceTo(name, RULE_NAME_MAX - |Suffix(n)|) + Suffix(n)
  }

  /** The last `(` stands at `i`, and the digits `d` fill the space up to the last character. */
  ghost predicate DigitsAt(s: string, i: int, d: string) {
    && 0 <= i < |s| - 1 && s[i] == '(' && s[i + 1..|s| - 1] == d
    && forall j :: i < j < |s| - 1 ==> s[j] != '('
  }

  lemma DigitsUnique(s: string, i: int, d: string, j: int, e: string)
    requires DigitsAt(s, i, d) && DigitsAt(s, j, e)
    ensures d == e
  {
    assert i == j;
  }

  lemma SuffixDigits(a: string, digits: string)
    requires '(' !in digits
    ensures DigitsAt(a + (" (" + digits + ")"), |a| + 1, digits)
  {
    var s := a + (" (" + digits + ")");
    assert s[|a| + 2..|s| - 1] == digits;
    assert forall j :: 0 <= j < |digits| ==> s[|a| + 2 + j] == digits[j] && digits[j] in digits;
  }

  /** Truncation never makes two suffixed candidates collide. */
  lemma CandidatesDistinct(name: string, n: nat, m: nat)
    requires Candidate(name, n) == Candidate(name, m)
    ensures n == m
  {
    var a, b := SliceTo(name, RULE_NAME_MAX - |Suffix(n)|), SliceTo(name, RULE_NAME_MAX - |Suffix(m)|);
    SuffixDigits(a, Dec(n));
    SuffixDigits(b, Dec(m));
    DigitsUnique(Candidate(name, n), |a| + 1, Dec(n), |b| + 1, Dec(m));
    DecInjective(n, m);
  }

  lemma {:induction false} CandidatesCount(name: string, n: nat, used: set<string>)
    requires n >= 2
    requires forall k :: 2 <= k < n ==> Candidate(name, k) in used
    ensures n - 2 <= |used|
    decreases n
  {
    if n > 2 {
      var last := Candidate(name, n - 1);
      forall k | 2 <= k < n - 1
        ensures Candidate(name, k) in used - {last}
      {
        if Candidate(name, k) == last {
          CandidatesDistinct(name, k, n - 1);
        }
      }
      CandidatesCount(name, n - 1, used - {last});
    }
  }

  /** The suffixed name fits the budget exactly when the suffix itself does. */
  lemma CandidateFits(name: string, n: nat)
    requires |name| <= RULE_NAME_MAX
    ensures |Candidate(name, n)| <= RULE_NAME_MAX <==> |Suffix(n)| <= RULE_NAME_MAX
  {
  }

  /** A candidate is the name, or as much of its beginning as leaves room, and the number in
      parentheses: the second rule of a name that is short enough is `name (2)`. A name is cut only
      as far as the budget asks; and if the number alone exceeds it, by the excess. */
  lemma CandidateShows(name: string, n: nat)
    ensures |name| + |Dec(n)| + 3 <= RULE_NAME_MAX ==> Candidate(name, n) == name + " (" + Dec(n) + ")"
    ensures |Dec(n)| + 3 <= RULE_NAME_MAX < |name| + |Dec(n)| + 3 ==>
              |Candidate(name, n)| == RULE_NAME_MAX && Candidate(name, n) == name[..RULE_NAME_MAX - |Dec(n)| - 3] + " (" + Dec(n) + ")"
    ensures |Dec(n)| + 3 > RULE_NAME_MAX ==>
              var cut := |Dec(n)| + 3 - RULE_NAME_MAX;
              Candidate(name, n) == (if |name| < cut then "" else name[..|name| - cut]) + " (" + Dec(n) + ")"
  {
    assert Suffix(n) == " (" + Dec(n) + ")" && |Suffix(n)| == |Dec(n)| + 3;
    var kept := SliceTo(name, RULE_NAME_MAX - |Suffix(n)|);
    assert kept + Suffix(n) == kept + " (" + Dec(n) + ")";
    assert name[..|name|] == name;
  }

  lemma SecondIsTwo(name: string)
    requires |name| <= 116
    ensures Candidate(name, 2) == name + " (2)"
  {
    assert Dec(2) == "2";
    CandidateShows(name, 2);
    assert name + " (" + "2" + ")" == name + " (2)";
  }

  /** `r` is what the source hands out for `name`: the name itself when it is free, else the
      first free suffixed candidate, `n` being the last number tried. */
  ghost predicate IsUniqueName(name: string, used: set<string>, r: string, n: nat) {
    && r !in used
    && (if name !in used then r == name
        else n >= 2 && r == Candidate(name, n) && forall k :: 2 <= k < n ==> Candidate(name, k) in used)
  }

  /** The answer is determined: no other name meets the description. */
  lemma UniqueNameDetermined(name: string, used: set<string>, r: string, n: nat, r': string, n': nat)
    requires IsUniqueName(name, used, r, n) && IsUniqueName(name, used, r', n')
    ensures r == r'
  {
  }

  /** The set of names that a batch has given out so far. */
  class NamePool {
    var used: set<string>

    constructor ()
      ensures used == {}
    {
      used := {};
    }

    /** Terminates within `|used| + 1` rounds of the loop, the pigeonhole bound. */
    method UniqueRuleName(name: string) returns (candidate: string, ghost n: nat)
      modifies this
      ensures IsUniqueName(name, old(used), candidate, n)
      ensures used == old(used) + {candidate}
      ensures n == 2 && |name| <= 116 && name in old(used) ==> candidate == name + " (2)"
      ensures name in old(used) ==> n - 1 <= |old(used)| + 1
      ensures |name| <= RULE_NAME_MAX && |Suffix(n)| <= RULE_NAME_MAX ==> |candidate| <= RULE_NAME_MAX
    {
      candidate := name;
      var next := 2;
      ghost var rounds := 0;
      while candidate in used
        invariant next == rounds + 2
        invariant used == old(used)
        invariant candidate == if next == 2 then name else Candidate(name, next - 1)
        invariant forall k :: 2 <= k < next - 1 ==> Candidate(name, k) in used
        invariant next > 2 ==> name in used
        invariant rounds <= |used| + 1
        decreases |used| + 3 - next
      {
        assert forall k :: 2 <= k < next ==> Candidate(name, k) in used;
        CandidatesCount(name, next, used);
        candidate := Candidate(name, next);
        next := next + 1;
        rounds := rounds + 1;
      }
      n := next - 1;
      if n == 2 && |name| <= 116 {
        SecondIsTwo(name);
      }
      if |name| <= RULE_NAME_MAX {
        CandidateFits(name, n);
      }
      used := used + {candidate};
    }
  }

  /** One capture of the batch: the name built for it (none when the capture is gone) and
      whether the backend then accepted the rule. */
  datatype Capture = Capture(name: Option<string>, accepted: bool) {
    predicate Saved() { name.Some? && accepted }
  }

  ghost predicate DerivedFrom(base: string, r: string) {
    r == base || exists n :: n >= 2 && r == Candidate(base, n)
  }

  /** Each saved rule belongs to one saved capture, in order. */
  ghost predicate InOrder(captures: seq<Capture>, names: seq<string>, from: seq<nat>) {
    && |from| == |names|
    && (forall i, j :: 0 <= i < j < |from| ==> from[i] < from[j])
    && (forall i :: 0 <= i < |from| ==>
          from[i] < |captures| && captures[from[i]].Saved() && DerivedFrom(captures[from[i]].name.value, names[i]))
  }

  /** No two rules of one batch share a name, whatever fails in between. */
  method AddRulesFor(captures: seq<Capture>) returns (names: seq<string>, failed: nat, ghost from: seq<nat>)
    ensures NoDup(names)
    ensures InOrder(captures, names, from)
    ensures |names| + failed == |captures|
    ensures forall i :: 0 <= i < |captures| && captures[i].Saved() ==> i in from
  {
    var pool := new NamePool();
    names, failed, from := [], 0, [];
    for i := 0 to |captures|
      invariant fresh(pool)
      invariant NoDup(names)
      invariant forall s :: s in names ==> s in pool.used
      invariant InOrder(captures, names, from)
      invariant forall k :: 0 <= k < |from| ==> from[k] < i
      invariant |names| + failed == i
      invariant forall k :: 0 <= k < i && captures[k].Saved() ==> k in from
    {
      if captures[i].name.None? {
        failed := failed + 1;
      } else {
        var name, n := pool.UniqueRuleName(captures[i].name.value);
        if captures[i].accepted {
          names, from := names + [name], from + [i];
        } else {
          failed := failed + 1;
        }
      }
    }
  }
}
