/** Verification codes: four characters, each drawn as
    `String.fromCharCode(floor(random * 25) + 1 + 65)`, so 'B'..'Z' only,
    regenerated until the code is not a live key of the verification table. */
module Codes {

  /** Number of characters in a code. */
  const CodeLength := 4

  /** `floor(random * 25)` spans 0..24. */
  const Rolls := 25

  /** Number of distinct codes the generator can produce: 25^4. */
  const CodeSpace := Rolls * Rolls * Rolls * Rolls

  /** One draw of `floor(Math.random() * 25)`. */
  type Roll = r: int | 0 <= r < Rolls

  /** The four draws of one pass of the generating loop. */
  type Attempt = a: seq<Roll> | |a| == CodeLength witness [0, 0, 0, 0]

  type Code = string

  predicate IsCodeChar(ch: char) {
    'B' <= ch <= 'Z'
  }

  predicate ValidCode(c: Code) {
    |c| == CodeLength && forall i :: 0 <= i < |c| ==> IsCodeChar(c[i])
  }

  /** The character produced by one roll: code point roll + 1 + 65. */
  function CodeChar(roll: Roll): (ch: char)
    ensures IsCodeChar(ch) && ch != 'A'
    ensures RollOf(ch) == roll
  {
    (roll + 1 + 65) as char
  }

  /** The roll that produces a code character: the inverse of CodeChar. */
  function RollOf(ch: char): (roll: Roll)
    requires IsCodeChar(ch)
  {
    ch as int - 66
  }

  /** The code built by one pass of the loop, one character per roll. */
  function CodeOf(a: Attempt): (c: Code)
    ensures ValidCode(c)
    ensures AttemptOf(c) == a
  {
    [CodeChar(a[0]), CodeChar(a[1]), CodeChar(a[2]), CodeChar(a[3])]
  }

  /** The rolls that would have produced a valid code. */
  function AttemptOf(c: Code): (a: Attempt)
    requires ValidCode(c)
  {
    [RollOf(c[0]), RollOf(c[1]), RollOf(c[2]), RollOf(c[3])]
  }

  /** Every valid code is the outcome of some pass of the loop, so the
      generator reaches every code in 'B'..'Z'^4 and nothing else. */
  lemma EveryValidCodeIsDrawable(c: Code)
    requires ValidCode(c)
    ensures CodeOf(AttemptOf(c)) == c
  {
  }

  /** The random source, seen through the loop: some pass yields a code that
      is not in use. */
  predicate HasFreeDraw(draws: seq<Attempt>, used: set<Code>) {
    exists i :: 0 <= i < |draws| && CodeOf(draws[i]) !in used
  }

  /** The `do { … } while (typeof ircVerification[hash] != 'undefined')` loop:
      the index of the pass that ends it, the first one whose code is unused. */
  function FirstFree(draws: seq<Attempt>, used: set<Code>): (k: nat)
    requires HasFreeDraw(draws, used)
    ensures k < |draws|
    ensures CodeOf(draws[k]) !in used
    ensures forall j :: 0 <= j < k ==> CodeOf(draws[j]) in used
    decreases |draws|
  {
    if CodeOf(draws[0]) !in used then 0
    else
      assert HasFreeDraw(draws[1..], used) by {
        var i :| 0 <= i < |draws| && CodeOf(draws[i]) !in used;
        assert draws[1..][i - 1] == draws[i];
      }
      1 + FirstFree(draws[1..], used)
  }

  /** The code the loop settles on. */
  function FreshCode(draws: seq<Attempt>, used: set<Code>): (c: Code)
    requires HasFreeDraw(draws, used)
    ensures ValidCode(c) && c !in used
  {
    CodeOf(draws[FirstFree(draws, used)])
  }

  // ---- Counting the code space ----------------------------------------

  /** The base-25 digits of n, most significant first. */
  function Digits(n: nat): (a: Attempt)
    requires n < CodeSpace
  {
    var q1 := n / 25;
    var q2 := q1 / 25;
    [q2 / 25, q2 % 25, q1 % 25, n % 25]
  }

  /** The n-th code in alphabetical order. */
  function NthCode(n: nat): (c: Code)
    requires n < CodeSpace
    ensures ValidCode(c)
  {
    CodeOf(Digits(n))
  }

  function FirstCodes(k: nat): set<Code>
    requires k <= CodeSpace
  {
    set n: nat | n < k :: NthCode(n)
  }

  lemma {:induction false} FirstCodesSize(k: nat)
    requires k <= CodeSpace
    ensures |FirstCodes(k)| == k
  {
    if k == 0 {
      assert FirstCodes(0) == {};
    } else {
      FirstCodesSize(k - 1);
      FirstCodesGrow(k);
    }
  }

  lemma FirstCodesGrow(k: nat)
    requires 0 < k <= CodeSpace
    requires |FirstCodes(k - 1)| == k - 1
    ensures |FirstCodes(k)| == k
  {
    var prev := FirstCodes(k - 1);
    var c := NthCode(k - 1);
    FirstCodesStep(k);
    NthCodeIsNew(k - 1);
    assert |prev + {c}| == |prev| + 1;
  }

  lemma NthCodeIsNew(k: nat)
    requires k < CodeSpace
    ensures NthCode(k) !in FirstCodes(k)
  {
  }

  lemma FirstCodesStep(k: nat)
    requires 0 < k <= CodeSpace
    ensures FirstCodes(k) == FirstCodes(k - 1) + {NthCode(k - 1)}
  {
  }

  /** Every valid code is among the 25^4 listed ones: the one whose index
      has its four rolls as base-25 digits. */
  lemma AllCodesCounted(c: Code)
    requires ValidCode(c)
    ensures c in FirstCodes(CodeSpace)
  {
    var a := AttemptOf(c);
    var r0, r1, r2, r3: int := a[0], a[1], a[2], a[3];
    var n := 15625 * r0 + 625 * r1 + 25 * r2 + r3;
    assert n / 25 == 625 * r0 + 25 * r1 + r2 && n % 25 == r3;
    var q1 := n / 25;
    assert q1 / 25 == 25 * r0 + r1 && q1 % 25 == r2;
    var q2 := q1 / 25;
    assert q2 / 25 == r0 && q2 % 25 == r1;
    assert Digits(n) == a;
    EveryValidCodeIsDrawable(c);
    assert NthCode(n) == c;
  }

  /** The codes the loop can produce are exactly 25^4 in number. */
  lemma CodeSpaceIsExact()
    ensures forall c :: ValidCode(c) <==> c in FirstCodes(CodeSpace)
    ensures |FirstCodes(CodeSpace)| == CodeSpace
  {
    forall c | ValidCode(c)
      ensures c in FirstCodes(CodeSpace)
    {
      AllCodesCounted(c);
    }
    FirstCodesSize(CodeSpace);
  }

  /** A set of 25^4 or more valid codes holds every valid code. */
  lemma FullSetHoldsEveryCode(used: set<Code>, c: Code)
    requires forall u :: u in used ==> ValidCode(u)
    requires |used| >= CodeSpace
    requires ValidCode(c)
    ensures c in used
  {
    CodeSpaceIsExact();
    if c !in used {
      var all := FirstCodes(CodeSpace);
      assert used <= all - {c};
      SubsetSize(used, all - {c});
      assert false;
    }
  }

  /** While fewer than 25^4 codes are live, some valid code is unused: the
      generating loop has something to find, and by EveryValidCodeIsDrawable
      a pass of the loop can draw it. */
  lemma FreeCodeExists(used: set<Code>)
    requires |used| < CodeSpace
    ensures exists c :: ValidCode(c) && c !in used
  {
    var all := FirstCodes(CodeSpace);
    FirstCodesSize(CodeSpace);
    if all <= used {
      SubsetSize(all, used);
      assert false;
    }
    var c :| c in all && c !in used;
  }

  lemma {:induction false} SubsetSize<T>(a: set<T>, b: set<T>)
    requires a <= b
    ensures |a| <= |b|
    decreases a
  {
    if a != {} {
      var x :| x in a;
      SubsetSize(a - {x}, b - {x});
    }
  }

  /** With fewer than 25^4 live codes, a single pass of the loop can end it. */
  lemma RetryCanEnd(used: set<Code>) returns (draws: seq<Attempt>)
    requires |used| < CodeSpace
    ensures |draws| == 1 && HasFreeDraw(draws, used)
  {
    FreeCodeExists(used);
    var c :| ValidCode(c) && c !in used;
    EveryValidCodeIsDrawable(c);
    draws := [AttemptOf(c)];
    assert CodeOf(draws[0]) !in used;
  }

  /** When every valid code is live, no pass of the loop can end it: the
      source spins for ever. */
  lemma RetryNeverEndsWhenFull(draws: seq<Attempt>, used: set<Code>)
    requires forall c :: ValidCode(c) ==> c in used
    ensures !HasFreeDraw(draws, used)
  {
  }
}
