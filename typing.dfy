/**
 * The typing animation of the hero subtitle: a cursor over a fixed list of
 * phrases types one character per tick, pauses at the end of the phrase,
 * deletes one character per tick, and moves on to the next phrase, wrapping
 * around forever. One call of `type()` is one tick; the timer that schedules
 * the next tick is the driver and is represented by the wait each tick returns.
 */
module Typing {

  /** The constructor's arguments: the phrases and the three waits in milliseconds. */
  datatype Params = Params(texts: seq<string>, speed: int, deleteSpeed: int, delay: int)

  /** `(textIndex, charIndex, isDeleting)` */
  datatype Cursor = Cursor(textIndex: int, charIndex: int, isDeleting: bool)

  /** What one tick does: the next cursor, the text it displays, and the wait before the next tick. */
  datatype Tick = Tick(next: Cursor, shown: string, wait: int)

  /** `s.substring(0, end)`: the end is clamped into `[0, |s|]`. */
  function Prefix(s: string, end: int): (p: string)
    ensures |p| <= |s| && p == s[..|p|]
    ensures 0 <= end <= |s| ==> |p| == end
  {
    if end <= 0 then "" else if end >= |s| then s else s[..end]
  }

  predicate AllNonEmpty(texts: seq<string>)
  {
    forall i :: 0 <= i < |texts| ==> |texts[i]| > 0
  }

  /**
   * The invariant of the animation over non-empty phrases: the phrase index is
   * in range, and the character count is below the phrase length while typing
   * and at least one while deleting.
   */
  predicate Steady(p: Params, c: Cursor)
  {
    && AllNonEmpty(p.texts)
    && 0 <= c.textIndex < |p.texts|
    && (if c.isDeleting then 1 <= c.charIndex <= |p.texts[c.textIndex]|
        else 0 <= c.charIndex < |p.texts[c.textIndex]|)
  }

  /** One call of `type()`. */
  function Advance(p: Params, c: Cursor): (t: Tick)
    requires 0 <= c.textIndex < |p.texts|
    ensures 0 <= t.next.textIndex < |p.texts|
    ensures t.next.textIndex == c.textIndex || t.next.textIndex == (c.textIndex + 1) % |p.texts|
  {
    var current := p.texts[c.textIndex];
    var charIndex := if c.isDeleting then c.charIndex - 1 else c.charIndex + 1;
    var shown := Prefix(current, charIndex);
    var wait := if c.isDeleting then p.deleteSpeed else p.speed;
    if !c.isDeleting && charIndex == |current| then
      Tick(Cursor(c.textIndex, charIndex, true), shown, p.delay)
    else if c.isDeleting && charIndex == 0 then
      Tick(Cursor((c.textIndex + 1) % |p.texts|, 0, false), shown, wait)
    else
      Tick(Cursor(c.textIndex, charIndex, c.isDeleting), shown, wait)
  }

  /**
   * Each tick keeps the invariant, and the subtitle then shows exactly the
   * first `charIndex` characters of the current phrase.
   */
  lemma AdvanceKeepsSteady(p: Params, c: Cursor)
    requires Steady(p, c)
    ensures var t := Advance(p, c);
      && Steady(p, t.next)
      && 0 <= t.next.charIndex <= |p.texts[t.next.textIndex]|
      && t.shown == p.texts[t.next.textIndex][..t.next.charIndex]
  {
  }

  /**
   * Typing turns into deleting exactly when the phrase is complete, and that
   * tick waits `delay`; otherwise a typing tick waits `speed` and adds one character.
   */
  lemma TypingTick(p: Params, c: Cursor)
    requires 0 <= c.textIndex < |p.texts| && !c.isDeleting
    ensures var t := Advance(p, c);
      && t.next.textIndex == c.textIndex
      && t.next.charIndex == c.charIndex + 1
      && (t.next.isDeleting <==> c.charIndex + 1 == |p.texts[c.textIndex]|)
      && t.wait == (if t.next.isDeleting then p.delay else p.speed)
  {
  }

  /**
   * Deleting turns into typing exactly when the count reaches zero, and then
   * the next phrase (modulo the number of phrases) starts from zero.
   */
  lemma DeletingTick(p: Params, c: Cursor)
    requires 0 <= c.textIndex < |p.texts| && c.isDeleting
    ensures var t := Advance(p, c);
      && t.wait == p.deleteSpeed
      && (!t.next.isDeleting <==> c.charIndex == 1)
      && (t.next.isDeleting ==> t.next == Cursor(c.textIndex, c.charIndex - 1, true))
      && (!t.next.isDeleting ==> t.next == Cursor((c.textIndex + 1) % |p.texts|, 0, false))
  {
  }

  /** The cursor after `n` ticks. */
  function Run(p: Params, c: Cursor, n: nat): (r: Cursor)
    requires 0 <= c.textIndex < |p.texts|
    ensures 0 <= r.textIndex < |p.texts|
    decreases n
  {
    if n == 0 then c else Run(p, Advance(p, c).next, n - 1)
  }

  lemma {:induction false} RunAdd(p: Params, c: Cursor, a: nat, b: nat)
    requires 0 <= c.textIndex < |p.texts|
    ensures Run(p, c, a + b) == Run(p, Run(p, c, a), b)
    decreases a
  {
    if a > 0 {
      RunAdd(p, Advance(p, c).next, a - 1, b);
    }
  }

  /** Running `a` ticks to `mid` and then `b` more to `end` is running `a + b` ticks to `end`. */
  lemma RunThrough(p: Params, c: Cursor, a: nat, b: nat, mid: Cursor, end: Cursor)
    requires 0 <= c.textIndex < |p.texts| && 0 <= mid.textIndex < |p.texts|
    requires Run(p, c, a) == mid && Run(p, mid, b) == end
    ensures Run(p, c, a + b) == end
  {
    RunAdd(p, c, a, b);
  }

  /** From `j` characters of phrase `i`, typing completes the phrase in `|phrase| - j` ticks. */
  lemma {:induction false} TypingPhase(p: Params, i: int, j: int)
    requires 0 <= i < |p.texts| && 0 <= j < |p.texts[i]|
    ensures Run(p, Cursor(i, j, false), |p.texts[i]| - j) == Cursor(i, |p.texts[i]|, true)
    decreases |p.texts[i]| - j
  {
    if j + 1 < |p.texts[i]| {
      TypingPhase(p, i, j + 1);
    }
  }

  /** From `j >= 1` characters, deleting reaches the start of the next phrase in `j` ticks. */
  lemma {:induction false} DeletingPhase(p: Params, i: int, j: int)
    requires 0 <= i < |p.texts| && 1 <= j
    ensures Run(p, Cursor(i, j, true), j) == Cursor((i + 1) % |p.texts|, 0, false)
    decreases j
  {
    if j > 1 {
      DeletingPhase(p, i, j - 1);
    }
  }

  /** A non-empty phrase is typed and deleted in `2 * |phrase|` ticks, then the next phrase starts. */
  lemma PhraseCycle(p: Params, i: int)
    requires 0 <= i < |p.texts| && |p.texts[i]| > 0
    ensures Run(p, Cursor(i, 0, false), 2 * |p.texts[i]|) == Cursor((i + 1) % |p.texts|, 0, false)
  {
    var n := |p.texts[i]|;
    TypingPhase(p, i, 0);
    DeletingPhase(p, i, n);
    RunAdd(p, Cursor(i, 0, false), n, n);
  }

  /** A value already below the modulus is its own remainder (kept apart so the modulus stays out of the callers' proof context). */
  lemma SmallModulo(a: int, n: int)
    requires 0 <= a < n
    ensures a % n == a
  {
  }

  /** The number of ticks that type and delete the first `k` phrases. */
  function TicksFor(texts: seq<string>, k: nat): (n: nat)
    requires k <= |texts|
  {
    if k == 0 then 0 else TicksFor(texts, k - 1) + 2 * |texts[k - 1]|
  }

  /**
   * Over non-empty phrases the animation visits them in order: after the
   * ticks of the first `k` phrases it starts phrase `k` (modulo the count),
   * so after all of them it is back at the very start and repeats forever.
   */
  lemma {:induction false} PhrasesInOrder(p: Params, k: nat)
    requires AllNonEmpty(p.texts) && 0 < |p.texts| && k <= |p.texts|
    ensures Run(p, Cursor(0, 0, false), TicksFor(p.texts, k)) == Cursor(k % |p.texts|, 0, false)
  {
    if k > 0 {
      PhrasesInOrder(p, k - 1);
      NextPhrase(p, k);
    }
  }

  /** The step of `PhrasesInOrder`: the ticks of phrase `k - 1` lead from its start to the start of phrase `k`. */
  lemma NextPhrase(p: Params, k: nat)
    requires 0 < k <= |p.texts| && |p.texts[k - 1]| > 0
    requires Run(p, Cursor(0, 0, false), TicksFor(p.texts, k - 1)) == Cursor((k - 1) % |p.texts|, 0, false)
    ensures Run(p, Cursor(0, 0, false), TicksFor(p.texts, k)) == Cursor(k % |p.texts|, 0, false)
  {
    var before := TicksFor(p.texts, k - 1);
    var len := |p.texts[k - 1]|;
    SmallModulo(k - 1, |p.texts|);
    PhraseCycle(p, k - 1);
    RunThrough(p, Cursor(0, 0, false), before, 2 * len, Cursor(k - 1, 0, false), Cursor(k % |p.texts|, 0, false));
  }

  /** The phrases ["Hi", "Yo"] cycle back to the start every eight ticks. */
  lemma HiYoExample(speed: int, deleteSpeed: int, delay: int)
    ensures var p := Params(["Hi", "Yo"], speed, deleteSpeed, delay);
      Run(p, Cursor(0, 0, false), 4) == Cursor(1, 0, false) &&
      Run(p, Cursor(0, 0, false), 8) == Cursor(0, 0, false)
  {
    var p := Params(["Hi", "Yo"], speed, deleteSpeed, delay);
    PhrasesInOrder(p, 1);
    PhrasesInOrder(p, 2);
  }

  class TypingAnimation {
    const params: Params
    var textIndex: int
    var charIndex: int
    var isDeleting: bool
    /** The `textContent` of the subtitle element. */
    var shown: string

    function Position(): (c: Cursor)
      reads this
    {
      Cursor(textIndex, charIndex, isDeleting)
    }

    ghost predicate Valid()
      reads this
    {
      0 <= textIndex < |params.texts|
    }

    /** Starts at the first phrase with nothing typed and runs the first tick at once. */
    constructor (elementText: string, texts: seq<string>, speed: int := 100, deleteSpeed: int := 50, delay: int := 2000)
      requires |texts| > 0
      ensures Valid() && params == Params(texts, speed, deleteSpeed, delay)
      ensures Position() == Advance(params, Cursor(0, 0, false)).next
      ensures shown == Advance(params, Cursor(0, 0, false)).shown
      ensures AllNonEmpty(texts) ==> Steady(params, Position())
    {
      params := Params(texts, speed, deleteSpeed, delay);
      textIndex, charIndex, isDeleting := 0, 0, false;
      shown := elementText;
      new;
      var _ := Type();
    }

    /** One tick of the animation; returns the wait before the next one. */
    method Type() returns (typeSpeed: int)
      requires Valid()
      modifies this`textIndex, this`charIndex, this`isDeleting, this`shown
      ensures Valid()
      ensures Position() == Advance(params, old(Position())).next
      ensures shown == Advance(params, old(Position())).shown
      ensures typeSpeed == Advance(params, old(Position())).wait
      ensures old(Steady(params, Position())) ==>
        Steady(params, Position()) && shown == params.texts[textIndex][..charIndex]
    {
      ghost var before := Position();
      var currentText := params.texts[textIndex];
      if isDeleting {
        shown := Prefix(currentText, charIndex - 1);
        charIndex := charIndex - 1;
      } else {
        shown := Prefix(currentText, charIndex + 1);
        charIndex := charIndex + 1;
      }
      typeSpeed := if isDeleting then params.deleteSpeed else params.speed;
      if !isDeleting && charIndex == |currentText| {
        typeSpeed := params.delay;
        isDeleting := true;
      } else if isDeleting && charIndex == 0 {
        isDeleting := false;
        textIndex := (textIndex + 1) % |params.texts|;
      }
      if Steady(params, before) {
        AdvanceKeepsSteady(params, before);
      }
    }
  }

  /** The four phrases of the hero subtitle are non-empty, so the invariant holds on the page. */
  const SitePhrases: seq<string> := ["Full Stack .NET Developer", "Problem Solver", "Code Enthusiast", "Continuous Learner"]

  lemma SitePhrasesNonEmpty()
    ensures AllNonEmpty(SitePhrases)
  {
  }
}
