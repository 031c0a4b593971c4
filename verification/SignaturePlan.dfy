/**
 The interpreter of signature plans (the loop of `_decrypt_sig` in the YouTube spider):
 reverse the characters, drop some from the front, or swap the first with another.
 A plan of the player script is a list of these steps; without one the text is kept.
 */
module SignaturePlan {

  datatype Step = Reverse | Drop(count: nat) | Swap(position: nat) | Unknown

  function Reversed<T>(s: seq<T>): (r: seq<T>)
    ensures |r| == |s|
    ensures forall i | 0 <= i < |s| :: r[i] == s[|s| - 1 - i]
  {
    if s == [] then [] else Reversed(s[1..]) + [s[0]]
  }

  function Apply<T>(step: Step, s: seq<T>): seq<T> {
    match step
    case Reverse => Reversed(s)
    case Drop(count) => if count <= |s| then s[count..] else []
    case Swap(position) =>
      if s == [] then s
      else
        var j := position % |s|;
        s[0 := s[j]][j := s[0]]
    case Unknown => s
  }

  function Run<T>(plan: seq<Step>, s: seq<T>): seq<T> {
    if plan == [] then s else Run(plan[1..], Apply(plan[0], s))
  }

  /** The loop over the plan; `arr` is rewritten step by step. */
  method Decrypt(sig: string, plan: seq<Step>) returns (decoded: string)
    ensures decoded == Run(plan, sig)
  {
    var arr := sig;
    for i := 0 to |plan|
      invariant Run(plan[i..], arr) == Run(plan, sig)
    {
      assert plan[i..][0] == plan[i] && plan[i..][1..] == plan[i + 1..];
      match plan[i] {
        case Reverse =>
          arr := Reversed(arr);
        case Drop(count) =>
          arr := if count <= |arr| then arr[count..] else [];
        case Swap(position) =>
          if arr != [] {
            var j := position % |arr|;
            arr := arr[0 := arr[j]][j := arr[0]];
          }
        case Unknown =>
      }
    }
    decoded := arr;
  }

  // ----- lengths -----

  function Loss(step: Step): nat {
    if step.Drop? then step.count else 0
  }

  function Dropped(plan: seq<Step>): nat {
    if plan == [] then 0 else Loss(plan[0]) + Dropped(plan[1..])
  }

  function Minus(n: nat, loss: nat): nat {
    if loss <= n then n - loss else 0
  }

  /** The output is shorter by exactly what the drop steps take, down to nothing. */
  lemma {:induction false} RunLength<T>(plan: seq<Step>, s: seq<T>)
    ensures |Run(plan, s)| == Minus(|s|, Dropped(plan))
    decreases plan
  {
    if plan != [] {
      RunLength(plan[1..], Apply(plan[0], s));
    }
  }

  // ----- a plan only moves characters -----

  /** Where one step takes its k-th character from, in a text of length `n`. */
  function Source(step: Step, n: nat, k: nat): (i: nat)
    requires k < Minus(n, Loss(step))
    ensures i < n
  {
    match step
    case Reverse => n - 1 - k
    case Drop(count) => count + k
    case Swap(position) => if k == 0 then position % n else if k == position % n then 0 else k
    case Unknown => k
  }

  /** Where the whole plan takes its k-th character from: arithmetic on the plan and the length alone. */
  function Origin(plan: seq<Step>, n: nat, k: nat): (i: nat)
    requires k < Minus(n, Dropped(plan))
    ensures i < n
  {
    if plan == [] then k
    else
      var m := Minus(n, Loss(plan[0]));
      Source(plan[0], n, Origin(plan[1..], m, k))
  }

  lemma StepPicks<T>(step: Step, s: seq<T>)
    ensures |Apply(step, s)| == Minus(|s|, Loss(step))
    ensures forall k | 0 <= k < |Apply(step, s)| :: Apply(step, s)[k] == s[Source(step, |s|, k)]
  {
    match step
    case Swap(position) =>
      if s != [] {
        var j := position % |s|;
        assert j < |s|;
        assert Apply(step, s) == s[0 := s[j]][j := s[0]];
      }
    case _ =>
  }

  lemma SourceInjective(step: Step, n: nat, j: nat, k: nat)
    requires j < k < Minus(n, Loss(step))
    ensures Source(step, n, j) != Source(step, n, k)
  {
  }

  /** Running a plan indexes the text by its origins. */
  lemma {:induction false} RunPicks<T>(plan: seq<Step>, s: seq<T>)
    ensures |Run(plan, s)| == Minus(|s|, Dropped(plan))
    ensures forall k | 0 <= k < |Run(plan, s)| :: Run(plan, s)[k] == s[Origin(plan, |s|, k)]
    decreases plan
  {
    RunLength(plan, s);
    if plan != [] {
      StepPicks(plan[0], s);
      RunPicks(plan[1..], Apply(plan[0], s));
    }
  }

  /** No character is used twice. */
  lemma {:induction false} OriginsDistinct(plan: seq<Step>, n: nat, j: nat, k: nat)
    requires j < Minus(n, Dropped(plan)) && k < Minus(n, Dropped(plan)) && j != k
    ensures Origin(plan, n, j) != Origin(plan, n, k)
    decreases plan
  {
    if plan != [] {
      var m := Minus(n, Loss(plan[0]));
      OriginsDistinct(plan[1..], m, j, k);
      var a, b := Origin(plan[1..], m, j), Origin(plan[1..], m, k);
      if a < b { SourceInjective(plan[0], n, a, b); } else { SourceInjective(plan[0], n, b, a); }
    }
  }

  // ----- undoing -----

  lemma {:induction false} RunConcat<T>(a: seq<Step>, b: seq<Step>, s: seq<T>)
    ensures Run(a + b, s) == Run(b, Run(a, s))
    decreases a
  {
    if a == [] {
      assert a + b == b;
    } else {
      assert (a + b)[1..] == a[1..] + b;
      RunConcat(a[1..], b, Apply(a[0], s));
    }
  }

  lemma StepUndoesItself<T>(step: Step, s: seq<T>)
    requires step.Drop? ==> step.count == 0
    ensures Apply(step, Apply(step, s)) == s
  {
    match step
    case Reverse => assert Reversed(Reversed(s)) == s;
    case Swap(position) =>
      if s != [] {
        var j := position % |s|;
        var t := s[0 := s[j]][j := s[0]];
        assert |t| == |s| && t[0 := t[j]][j := t[0]] == s;
      }
    case _ =>
  }

  /** A plan that drops nothing is undone by running its steps in reverse order. */
  lemma {:induction false} ReversePlanRestores<T>(plan: seq<Step>, s: seq<T>)
    requires Dropped(plan) == 0
    ensures Run(Reversed(plan), Run(plan, s)) == s
    decreases plan
  {
    if plan != [] {
      var first, rest := plan[0], plan[1..];
      var t := Apply(first, s);
      ReversePlanRestores(rest, t);
      RunConcat(Reversed(rest), [first], Run(rest, t));
      assert [first][1..] == [];
      StepUndoesItself(first, s);
    }
  }

  /** Reversing the plan restores a non-empty text exactly if the plan drops nothing; otherwise no plan does. */
  lemma RestoresExactlyWhen<T>(plan: seq<Step>, s: seq<T>, undo: seq<Step>)
    ensures Run(Reversed(plan), Run(plan, s)) == s <==> s == [] || Dropped(plan) == 0
    ensures s != [] && Dropped(plan) > 0 ==> Run(undo, Run(plan, s)) != s
  {
    RunLength(plan, s);
    RunLength(Reversed(plan), Run(plan, s));
    RunLength(undo, Run(plan, s));
    if Dropped(plan) == 0 {
      ReversePlanRestores(plan, s);
    }
  }

  /** Every kind of step once, a swap beyond the end among them. */
  lemma PlanExample()
    ensures Run([Reverse, Drop(2), Unknown, Swap(8)], "abcdefg") == "bdcea"
    ensures Run([Drop(8), Swap(1)], "abcdefg") == ""
  {
    assert Reversed("abcdefg") == "gfedcba";
    assert [Reverse, Drop(2), Unknown, Swap(8)][1..] == [Drop(2), Unknown, Swap(8)];
    assert [Drop(2), Unknown, Swap(8)][1..] == [Unknown, Swap(8)] && [Unknown, Swap(8)][1..] == [Swap(8)];
    assert "gfedcba"[2..] == "edcba";
    SwapExample();
    RunOneStep(Swap(8), "edcba");
    assert [Drop(8), Swap(1)][1..] == [Swap(1)];
    RunOneStep(Swap(1), "");
  }

  lemma SwapExample()
    ensures Apply(Swap(8), "edcba") == "bdcea"
  {
    assert 8 % |"edcba"| == 3;
  }

  lemma RunOneStep(step: Step, s: string)
    ensures Run([step], s) == Apply(step, s)
  {
    assert [step][1..] == [];
  }

  /** Dropping a character takes two signatures to the same text. */
  lemma DroppedIsLost()
    ensures Run([Drop(1)], "ab") == Run([Drop(1)], "cb") == "b"
  {
    assert [Drop(1)][1..] == [];
    assert "ab"[1..] == "b" && "cb"[1..] == "b";
  }
}
