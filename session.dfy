/**
 * The scan-to-decision state machine of `run_barcode_scanner`, as functions
 * of its inputs. The camera, the decoder, the key poll and the clock become
 * a script of ticks; the console's y/n prompt becomes a script of answers.
 */
module Session {
  import opened Wrappers
  import opened Text
  import opened Catalog
  import opened Allergy
  import opened Debounce

  /** What one pass of the outer loop gets from the camera, the key poll and the decoder. */
  datatype Tick =
    | ReadFailed
    | QuitKey
      /** The decoded strings, and the clock as read by the test and by the update. */
    | Frame(barcodes: seq<string>, checkTime: real, stampTime: real)

  /** What a frame led to. */
  datatype Decision =
    | NoBarcode
    | AllSuppressed
    | NotFound(barcode: string)
    | Offered(barcode: string, product: Product, verdict: string, accepted: bool)
      /** The y/n prompt found no more input. */
    | NoAnswer(barcode: string, product: Product)

  /** Why the session ended. */
  datatype EndReason = CartFull | FrameUnavailable | UserQuit | InputClosed

  /** The loop's state: the cart, its total, the debouncer and the answers not yet read. */
  datatype Ledger = Ledger(cart: seq<Product>, total: real, debounce: DebounceState, answers: seq<string>)

  /** The state the loop starts in. */
  function Start(answers: seq<string>): Ledger {
    Ledger([], 0.0, Initial, answers)
  }

  /** The sum of the discounted prices over the cart, in cart order. */
  function CartTotal(cart: seq<Product>): real {
    if cart == [] then 0.0 else CartTotal(cart[..|cart| - 1]) + DiscountedPrice(cart[|cart| - 1])
  }

  /** Appending an item adds its discounted price to the total. */
  lemma CartTotalAppend(cart: seq<Product>, p: Product)
    ensures CartTotal(cart + [p]) == CartTotal(cart) + DiscountedPrice(p)
  {
    assert (cart + [p])[..|cart|] == cart;
  }

  /** The total of a cart of well-priced records lies between nothing and the sum of the full prices. */
  lemma {:induction false} CartTotalBounds(cart: seq<Product>)
    requires AllWellPriced(cart)
    ensures 0.0 <= CartTotal(cart) <= FullPrice(cart)
  {
    if cart != [] {
      var front := cart[..|cart| - 1];
      assert AllWellPriced(front) by {
        forall k | 0 <= k < |front| ensures WellPriced(front[k]) {
          assert front[k] == cart[k];
        }
      }
      CartTotalBounds(cart[..|cart| - 1]);
      DiscountedPriceBounds(cart[|cart| - 1]);
    }
  }

  /** The sum of the undiscounted prices over the cart. */
  function FullPrice(cart: seq<Product>): real {
    if cart == [] then 0.0 else FullPrice(cart[..|cart| - 1]) + cart[|cart| - 1].price
  }

  /** `input(...).lower() == 'y'`. */
  predicate Accepts(answer: string) {
    Lower(answer) == "y"
  }

  /** Only a one-letter answer of `y` or `Y` adds the item; anything else, blank included, declines it. */
  lemma AcceptsExactly(answer: string)
    ensures Accepts(answer) <==> answer == "y" || answer == "Y"
  {
    LowerResult(answer);
    if Accepts(answer) {
      assert |answer| == 1;
      assert LowerChar(answer[0]) == Lower(answer)[0] == 'y';
      assert answer == [answer[0]];
    }
    if answer == "Y" {
      assert Lower(answer) == [LowerChar('Y')];
    }
    if answer == "y" {
      assert Lower(answer) == [LowerChar('y')];
    }
  }

  /** What a new event for `barcode` leads to: lookup, verdict, prompt, cart update and reset. */
  function Resolve(profile: seq<string>, st: Ledger, barcode: string, stampTime: real): (Ledger, Decision) {
    var recorded := Record(barcode, stampTime);
    match Lookup(barcode)
    case None => (st.(debounce := Reset(recorded)), NotFound(barcode))
    case Some(p) =>
      if st.answers == [] then (st.(debounce := recorded), NoAnswer(barcode, p))
      else
        var yes := Accepts(st.answers[0]);
        var cart := if yes then st.cart + [p] else st.cart;
        var total := if yes then st.total + DiscountedPrice(p) else st.total;
        (Ledger(cart, total, Reset(recorded), st.answers[1..]), Offered(barcode, p, Evaluate(Some(p), profile), yes))
  }

  /** The inner loop over the decoded strings: the first new event is resolved, the rest of the frame ignored. */
  function FrameStep(profile: seq<string>, st: Ledger, barcodes: seq<string>, checkTime: real, stampTime: real): (Ledger, Decision) {
    if barcodes == [] then (st, AllSuppressed)
    else if IsNewEvent(st.debounce, barcodes[0], checkTime) then Resolve(profile, st, barcodes[0], stampTime)
    else FrameStep(profile, st, barcodes[1..], checkTime, stampTime)
  }

  /** The outer loop, run until the cart is full, a frame cannot be read, 'q' is pressed or the prompt gets no answer. */
  function Run(profile: seq<string>, limit: int, st: Ledger, ticks: seq<Tick>): (Ledger, EndReason)
    decreases |ticks|
  {
    if |st.cart| >= limit then (st, CartFull)
    else if ticks == [] then (st, FrameUnavailable)
    else match ticks[0]
      case ReadFailed => (st, FrameUnavailable)
      case QuitKey => (st, UserQuit)
      case Frame(barcodes, checkTime, stampTime) =>
        if barcodes == [] then Run(profile, limit, st, ticks[1..])
        else
          var (next, d) := FrameStep(profile, st, barcodes, checkTime, stampTime);
          if d.NoAnswer? then (next, InputClosed) else Run(profile, limit, next, ticks[1..])
  }

  /** Every record in the cart is well priced. */
  predicate AllWellPriced(cart: seq<Product>) {
    forall k :: 0 <= k < |cart| ==> WellPriced(cart[k])
  }

  /**
   * What holds between frames: the cart within its limit and made of table
   * records, the total its sum, no barcode remembered.
   */
  predicate Inv(limit: int, st: Ledger) {
    && |st.cart| <= limit
    && AllWellPriced(st.cart)
    && st.total == CartTotal(st.cart)
    && st.debounce.last.None?
  }

  /**
   * One decision changes the ledger only as the prompt says: an accepted
   * product is appended and its discounted price added; a declined or unknown
   * product leaves cart and total as they were. Every outcome but a missing
   * answer ends with the barcode forgotten.
   */
  lemma ResolveLedger(profile: seq<string>, st: Ledger, barcode: string, stampTime: real)
    ensures var (next, d) := Resolve(profile, st, barcode, stampTime);
      && (d.NotFound? <==> Lookup(barcode).None?)
      && (d.Offered? || d.NoAnswer? ==> Lookup(barcode) == Some(d.product))
      && (d.NoAnswer? <==> Lookup(barcode).Some? && st.answers == [])
      && (d.Offered? ==> st.answers != [] && d.accepted == Accepts(st.answers[0]) && next.answers == st.answers[1..])
      && (d.Offered? ==> d.verdict == Evaluate(Some(d.product), profile))
      && (d.Offered? && d.accepted ==>
            next.cart == st.cart + [d.product] && next.total == st.total + DiscountedPrice(d.product))
      && (!(d.Offered? && d.accepted) ==> next.cart == st.cart && next.total == st.total)
      && (!d.NoAnswer? ==> next.debounce == DebounceState(None, stampTime))
      && !d.AllSuppressed? && !d.NoBarcode? && d.barcode == barcode
  {
  }

  /**
   * However the frame's strings are debounced, a frame appends at most one
   * product: cart and total are unchanged unless one product was accepted.
   */
  lemma {:induction false} FrameStepLedger(profile: seq<string>, st: Ledger, barcodes: seq<string>, checkTime: real, stampTime: real)
    ensures var (next, d) := FrameStep(profile, st, barcodes, checkTime, stampTime);
      && (d.Offered? && d.accepted ==>
            next.cart == st.cart + [d.product] && next.total == st.total + DiscountedPrice(d.product) &&
            d.barcode in barcodes && Lookup(d.barcode) == Some(d.product))
      && (!(d.Offered? && d.accepted) ==> next.cart == st.cart && next.total == st.total)
      && (d.AllSuppressed? ==> next == st)
      && (!d.AllSuppressed? && !d.NoAnswer? ==> next.debounce.last.None?)
  {
    if barcodes != [] {
      if IsNewEvent(st.debounce, barcodes[0], checkTime) {
        ResolveLedger(profile, st, barcodes[0], stampTime);
      } else {
        FrameStepLedger(profile, st, barcodes[1..], checkTime, stampTime);
      }
    }
  }

  /**
   * With no barcode remembered, as between every two frames, the first string
   * of a frame is always resolved and the suppressed path is never taken.
   */
  lemma FirstBarcodeResolved(profile: seq<string>, st: Ledger, barcodes: seq<string>, checkTime: real, stampTime: real)
    requires st.debounce.last.None? && barcodes != []
    ensures FrameStep(profile, st, barcodes, checkTime, stampTime) == Resolve(profile, st, barcodes[0], stampTime)
    ensures !FrameStep(profile, st, barcodes, checkTime, stampTime).1.AllSuppressed?
  {
    ResolveLedger(profile, st, barcodes[0], stampTime);
  }

  /**
   * A frame taken while the cart is below the limit keeps the invariant,
   * unless the prompt ran out of input; the cart grows by at most one item.
   */
  lemma FrameKeepsInv(profile: seq<string>, limit: int, st: Ledger, barcodes: seq<string>, checkTime: real, stampTime: real)
    requires Inv(limit, st) && |st.cart| < limit && barcodes != []
    ensures var (next, d) := FrameStep(profile, st, barcodes, checkTime, stampTime);
      && st.cart <= next.cart && |next.cart| <= |st.cart| + 1
      && AllWellPriced(next.cart) && next.total == CartTotal(next.cart)
      && (!d.NoAnswer? ==> Inv(limit, next))
  {
    var (next, d) := FrameStep(profile, st, barcodes, checkTime, stampTime);
    FirstBarcodeResolved(profile, st, barcodes, checkTime, stampTime);
    ResolveLedger(profile, st, barcodes[0], stampTime);
    if d.Offered? && d.accepted {
      CartTotalAppend(st.cart, d.product);
      AppendWellPriced(st.cart, d.product);
    }
  }

  /** Appending a well-priced record keeps every record of the cart well priced. */
  lemma AppendWellPriced(cart: seq<Product>, p: Product)
    requires AllWellPriced(cart) && WellPriced(p)
    ensures AllWellPriced(cart + [p])
  {
    forall k | 0 <= k < |cart| + 1 ensures WellPriced((cart + [p])[k]) {
      if k < |cart| {
        assert (cart + [p])[k] == cart[k];
      }
    }
  }

  /**
   * The session keeps its invariant: the cart never exceeds the limit, only
   * grows by appending, by at most one item per tick, and its total is always
   * the sum of its discounted prices, between nothing and the sum of the
   * full prices. It ends with a full cart exactly when the reason given is
   * that the cart is full.
   */
  lemma {:induction false} RunKeepsInv(profile: seq<string>, limit: int, st: Ledger, ticks: seq<Tick>)
    requires Inv(limit, st)
    decreases |ticks|
    ensures var (fin, reason) := Run(profile, limit, st, ticks);
      && |fin.cart| <= limit
      && fin.total == CartTotal(fin.cart)
      && 0.0 <= fin.total <= FullPrice(fin.cart)
      && st.cart <= fin.cart
      && |fin.cart| <= |st.cart| + |ticks|
      && (reason == CartFull <==> |fin.cart| == limit)
      && (reason != InputClosed ==> Inv(limit, fin))
  {
    CartTotalBounds(st.cart);
    if |st.cart| < limit && ticks != [] && ticks[0].Frame? && ticks[0].barcodes != [] {
      var t := ticks[0];
      var (next, d) := FrameStep(profile, st, t.barcodes, t.checkTime, t.stampTime);
      FrameKeepsInv(profile, limit, st, t.barcodes, t.checkTime, t.stampTime);
      if !d.NoAnswer? {
        RunKeepsInv(profile, limit, next, ticks[1..]);
      } else {
        CartTotalBounds(next.cart);
      }
    } else if |st.cart| < limit && ticks != [] && ticks[0].Frame? {
      RunKeepsInv(profile, limit, st, ticks[1..]);
    }
  }

  /** Accepting a product at a fresh state appends it and adds its discounted price. */
  lemma AcceptFresh(st: Ledger, barcode: string, p: Product, now: real)
    requires st.debounce.last.None? && Lookup(barcode) == Some(p)
    requires st.answers != [] && st.answers[0] == "y"
    ensures FrameStep([], st, [barcode], now, now) ==
      (Ledger(st.cart + [p], st.total + DiscountedPrice(p), DebounceState(None, now), st.answers[1..]),
       Offered(barcode, p, NotApplicable, true))
  {
    assert Lower("y") == "y";
    EvaluateNotApplicable(Some(p), []);
  }

  /**
   * Scenario with an item limit of 2 and no allergies: accepting the trail mix
   * (150, 10% off) brings the total to 135, then accepting the kala chana
   * (85, no discount) brings it to 220 and fills the cart.
   */
  lemma TwoItemSession()
    ensures FrameStep([], Start(["y", "y"]), ["8903363011411"], 10.0, 10.0) ==
      (Ledger([TrailMix], 135.0, DebounceState(None, 10.0), ["y"]),
       Offered("8903363011411", TrailMix, NotApplicable, true))
    ensures Run([], 2, Start(["y", "y"]),
                [Frame(["8903363011411"], 10.0, 10.0), Frame(["8906008815191"], 11.0, 11.0)]) ==
      (Ledger([TrailMix, KalaChana], 220.0, DebounceState(None, 11.0), []), CartFull)
  {
    LookupExamples();
    var st0 := Start(["y", "y"]);
    AcceptFresh(st0, "8903363011411", TrailMix, 10.0);
    assert [] + [TrailMix] == [TrailMix];
    var st1 := Ledger([TrailMix], 135.0, DebounceState(None, 10.0), ["y"]);
    AcceptFresh(st1, "8906008815191", KalaChana, 11.0);
    var st2 := Ledger([TrailMix, KalaChana], 220.0, DebounceState(None, 11.0), []);
    var ticks := [Frame(["8903363011411"], 10.0, 10.0), Frame(["8906008815191"], 11.0, 11.0)];
    assert ticks[1..] == [Frame(["8906008815191"], 11.0, 11.0)];
    assert ticks[1..][1..] == [];
    assert st1.cart + [KalaChana] == [TrailMix, KalaChana];
    assert Run([], 2, st2, []) == (st2, CartFull);
    assert Run([], 2, st1, ticks[1..]) == (st2, CartFull);
  }
}
