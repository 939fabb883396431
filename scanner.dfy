/**
 * `run_barcode_scanner` as the program runs it: the item-limit prompt loop,
 * then a shopping session object whose fields the outer and inner loops
 * update in place. The two loop methods of the session are proved equal to
 * the functions of module Session, whose properties are proved there; the
 * prompt loop and the top-level method carry contracts of their own.
 */
module Scanner {
  import opened Wrappers
  import opened Text
  import opened Catalog
  import opened Allergy
  import opened Debounce
  import opened Profile
  import Session

  /** An answer to the item-limit prompt that ends the prompt loop: a whole number above zero. */
  predicate IsValidLimit(attempt: Option<int>) {
    attempt.Some? && attempt.value > 0
  }

  /** None of the answers ends the prompt loop. */
  predicate NoneValid(attempts: seq<Option<int>>) {
    forall k :: 0 <= k < |attempts| ==> !IsValidLimit(attempts[k])
  }

  /**
   * The prompt loop for the item limit. Each answer is what `int()` made of
   * the typed line (`None` when it raised `ValueError`); the loop asks again
   * until one is above zero. `limit` is `None` when the answers run out first.
   */
  method ReadItemLimit(attempts: seq<Option<int>>) returns (limit: Option<int>, used: nat)
    ensures used <= |attempts|
    ensures limit.None? ==> used == |attempts| && NoneValid(attempts)
    ensures limit.Some? ==>
      used > 0 && attempts[used - 1] == limit && limit.value > 0 && NoneValid(attempts[..used - 1])
  {
    used := 0;
    while used < |attempts|
      invariant used <= |attempts|
      invariant NoneValid(attempts[..used])
    {
      var attempt := attempts[used];
      used := used + 1;
      if attempt.Some? && attempt.value > 0 {
        return attempt, used;
      }
      assert attempts[..used] == attempts[..used - 1] + [attempt];
    }
    assert attempts[..used] == attempts;
    limit := None;
  }

  /**
   * The locals of the session loop: the allergy profile and the item limit
   * fixed at start-up, the cart and its total, the debouncer's barcode and
   * time, and the answers the y/n prompt has yet to read.
   */
  class ShoppingSession {
    const profile: seq<string>
    const itemLimit: int
    var cart: seq<Product>
    var total: real
    var scanned: Option<string>
    var lastScanned: real
    var answers: seq<string>

    /** The fields as the state of the loop functions. */
    function State(): Session.Ledger
      reads this
    {
      Session.Ledger(cart, total, DebounceState(scanned, lastScanned), answers)
    }

    /** Between frames: a positive limit, the cart within it, the total its sum and no barcode remembered. */
    ghost predicate Valid()
      reads this
    {
      itemLimit > 0 && Session.Inv(itemLimit, State())
    }

    /** The profile parsed from the allergy answer, an empty cart, a zero total and no barcode. */
    constructor(allergyLine: string, itemLimit: int, answers: seq<string>)
      requires itemLimit > 0
      ensures profile == Parse(allergyLine) && this.itemLimit == itemLimit
      ensures State() == Session.Start(answers)
      ensures Valid()
    {
      profile := Parse(allergyLine);
      this.itemLimit := itemLimit;
      cart, total := [], 0.0;
      scanned, lastScanned := None, 0.0;
      this.answers := answers;
    }

    /**
     * The inner loop over one frame's decoded strings. The first one that is
     * a new event is looked up, shown with its verdict and offered; the loop
     * then stops and the rest of the frame is ignored.
     */
    method ProcessFrame(barcodes: seq<string>, checkTime: real, stampTime: real) returns (d: Session.Decision)
      modifies this
      ensures (State(), d) == Session.FrameStep(profile, old(State()), barcodes, checkTime, stampTime)
    {
      d := Session.AllSuppressed;
      var i := 0;
      while i < |barcodes|
        invariant 0 <= i <= |barcodes|
        invariant State() == old(State()) && d == Session.AllSuppressed
        invariant Session.FrameStep(profile, State(), barcodes[i..], checkTime, stampTime) ==
          Session.FrameStep(profile, old(State()), barcodes, checkTime, stampTime)
      {
        var data := barcodes[i];
        if Some(data) != scanned || checkTime - lastScanned > Cooldown {
          ghost var before := State();
          assert IsNewEvent(before.debounce, barcodes[i..][0], checkTime);
          scanned, lastScanned := Some(data), stampTime;
          var details := Lookup(data);
          if details.Some? {
            var p := details.value;
            var verdict := Evaluate(details, profile);
            if answers == [] {
              d := Session.NoAnswer(data, p);
              return;
            }
            var yes := Lower(answers[0]) == "y";
            answers := answers[1..];
            if yes {
              cart := cart + [p];
              total := total + DiscountedPrice(p);
            }
            d := Session.Offered(data, p, verdict, yes);
          } else {
            d := Session.NotFound(data);
          }
          scanned := None;
          return;
        }
        i := i + 1;
      }
    }

    /**
     * The outer loop: one tick per pass while the cart is below the limit. A
     * failed read or the quit key ends it, a frame without barcodes is
     * skipped, and a frame with barcodes goes through the inner loop.
     */
    method Run(ticks: seq<Session.Tick>) returns (reason: Session.EndReason)
      requires Valid()
      modifies this
      ensures (State(), reason) == Session.Run(profile, itemLimit, old(State()), ticks)
      ensures |cart| <= itemLimit && total == Session.CartTotal(cart) && old(cart) <= cart
      ensures 0.0 <= total <= Session.FullPrice(cart)
      ensures reason == Session.CartFull <==> |cart| == itemLimit
      ensures reason != Session.InputClosed ==> Valid()
    {
      ghost var start := State();
      Session.RunKeepsInv(profile, itemLimit, start, ticks);
      var i := 0;
      while |cart| < itemLimit
        invariant 0 <= i <= |ticks|
        invariant Valid()
        invariant Session.Run(profile, itemLimit, State(), ticks[i..]) == Session.Run(profile, itemLimit, start, ticks)
        decreases |ticks| - i
      {
        if i == |ticks| {
          return Session.FrameUnavailable;
        }
        match ticks[i]
        case ReadFailed =>
          return Session.FrameUnavailable;
        case QuitKey =>
          return Session.UserQuit;
        case Frame(barcodes, checkTime, stampTime) =>
          ghost var before := State();
          assert ticks[i..][1..] == ticks[i + 1..];
          i := i + 1;
          if barcodes != [] {
            Session.FrameKeepsInv(profile, itemLimit, before, barcodes, checkTime, stampTime);
            var d := ProcessFrame(barcodes, checkTime, stampTime);
            if d.NoAnswer? {
              return Session.InputClosed;
            }
          }
      }
      reason := Session.CartFull;
    }
  }

  /** What the final bill shows: the cart, its total, the limit, and why shopping stopped. */
  datatype Bill = Bill(cart: seq<Product>, total: real, itemLimit: int, reason: Session.EndReason)

  /**
   * The whole of `run_barcode_scanner` after the camera has opened: read the
   * profile, read the item limit, run the session and produce the final bill.
   * Input that runs out at either prompt ends the program with an uncaught
   * `EOFError`, so there is then no bill; when it runs out at the item-limit
   * prompt there is no limit either.
   */
  method RunBarcodeScanner(allergyLine: string, limitAttempts: seq<Option<int>>, answers: seq<string>, ticks: seq<Session.Tick>)
    returns (limit: Option<int>, bill: Option<Bill>)
    ensures limit.None? <==> NoneValid(limitAttempts)
    ensures limit.Some? ==>
      exists u :: 0 <= u < |limitAttempts| && limitAttempts[u] == limit && NoneValid(limitAttempts[..u])
    ensures limit.None? ==> bill.None?
    ensures limit.Some? ==>
      var (fin, reason) := Session.Run(Parse(allergyLine), limit.value, Session.Start(answers), ticks);
      && (bill.None? <==> reason == Session.InputClosed)
      && (bill.Some? ==> bill.value == Bill(fin.cart, fin.total, limit.value, reason))
    ensures bill.Some? ==>
      && 0 < bill.value.itemLimit
      && |bill.value.cart| <= bill.value.itemLimit
      && bill.value.total == Session.CartTotal(bill.value.cart)
      && 0.0 <= bill.value.total <= Session.FullPrice(bill.value.cart)
      && (bill.value.reason == Session.CartFull <==> |bill.value.cart| == bill.value.itemLimit)
  {
    var used;
    limit, used := ReadItemLimit(limitAttempts);
    if limit.None? {
      return limit, None;
    }
    assert IsValidLimit(limitAttempts[used - 1]);
    var session := new ShoppingSession(allergyLine, limit.value, answers);
    var reason := session.Run(ticks);
    if reason == Session.InputClosed {
      return limit, None;
    }
    bill := Some(Bill(session.cart, session.total, limit.value, reason));
  }
}
