// MediaThrobber: the spinning icon shown on a media item while its preview
// is generated.  The icon is cut from a horizontal strip of
// ThrobberLimit frames, each ThrobberSize pixels square; every timer tick
// shows the next frame and wraps back to the first after the last.

module Throbber {

  const ThrobberLimit: int := 20
  const ThrobberSize: int := 50

  /** The region of the strip copied into the icon. */
  datatype Crop = Crop(x: int, y: int, width: int, height: int)

  /** The frame a tick shows when the counter holds `a`. */
  function Shown(a: int): (f: int)
    ensures 0 <= a <= ThrobberLimit ==> 0 <= f < ThrobberLimit
    ensures 0 <= a < ThrobberLimit ==> f == a
  {
    if a == ThrobberLimit then 0 else a
  }

  /** The counter after a tick that started from `a`. */
  function Tick(a: int): (b: int)
    ensures 0 <= a <= ThrobberLimit ==> 1 <= b <= ThrobberLimit
  {
    Shown(a) + 1
  }

  /** The counter after `k` ticks from a fresh throbber. */
  function AfterTicks(k: nat): int {
    if k == 0 then 0 else Tick(AfterTicks(k - 1))
  }

  /** The frame the `k`-th tick (counting from 1) shows. */
  function ShownAt(k: nat): int
    requires k >= 1
  {
    Shown(AfterTicks(k - 1))
  }

  /** The counter of a running throbber stays between 1 and ThrobberLimit
      after the first tick, and cycles with period ThrobberLimit. */
  lemma {:induction false} AfterTicksCycles(k: nat)
    ensures k == 0 ==> AfterTicks(k) == 0
    ensures k > 0 ==> AfterTicks(k) == (k - 1) % ThrobberLimit + 1
  {
    if k > 1 {
      AfterTicksCycles(k - 1);
      NextRemainder(k - 2);
    }
  }

  /** Counting on by one moves the remainder on by one, or back to 0 after
      the last frame. */
  lemma NextRemainder(n: nat)
    ensures (n + 1) % ThrobberLimit == if n % ThrobberLimit == ThrobberLimit - 1 then 0 else n % ThrobberLimit + 1
  {
    var q, r := n / ThrobberLimit, n % ThrobberLimit;
    assert n == ThrobberLimit * q + r;
    if r == ThrobberLimit - 1 {
      assert n + 1 == ThrobberLimit * (q + 1);
    } else {
      assert n + 1 == ThrobberLimit * q + (r + 1);
    }
  }

  /** The `k`-th tick shows frame (k - 1) mod ThrobberLimit: the frames are
      shown in order and the strip starts over after its last frame. */
  lemma ShownAtCycles(k: nat)
    requires k >= 1
    ensures ShownAt(k) == (k - 1) % ThrobberLimit
    ensures 0 <= ShownAt(k) < ThrobberLimit
  {
    AfterTicksCycles(k - 1);
    if k > 1 {
      NextRemainder(k - 2);
      var r := (k - 2) % ThrobberLimit;
      assert AfterTicks(k - 1) == r + 1;
      assert (k - 1) % ThrobberLimit == if r == ThrobberLimit - 1 then 0 else r + 1;
    }
  }

  /** Every crop lies inside the strip of ThrobberLimit frames. */
  lemma CropInStrip(a: int)
    requires 0 <= a <= ThrobberLimit
    ensures 0 <= ThrobberSize * Shown(a)
    ensures ThrobberSize * Shown(a) + ThrobberSize <= ThrobberSize * ThrobberLimit
  {
  }

  class MediaThrobber {
    /** animation: the counter of the next frame to show */
    var animation: int

    ghost predicate Valid()
      reads this
    {
      0 <= animation <= ThrobberLimit
    }

    /** MediaThrobber::MediaThrobber, which starts the counter at 0. */
    constructor ()
      ensures animation == 0 && Valid()
    {
      animation := 0;
    }

    /** MediaThrobber::animation_update: the crop of the strip set as the
        item's icon, then the counter moved on. */
    method AnimationUpdate() returns (crop: Crop)
      requires Valid()
      modifies this
      ensures Valid()
      ensures crop == Crop(ThrobberSize * Shown(old(animation)), 0, ThrobberSize, ThrobberSize)
      ensures 0 <= crop.x && crop.x + crop.width <= ThrobberSize * ThrobberLimit
      ensures animation == Tick(old(animation))
    {
      if animation == ThrobberLimit {
        animation := 0;
      }
      crop := Crop(ThrobberSize * animation, 0, ThrobberSize, ThrobberSize);
      animation := animation + 1;
    }
  }
}
