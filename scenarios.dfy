/**
 * Worked examples with the dishes of the sample catalogue (excel.py): what
 * the cart, the validation and the link give for concrete inputs.
 */
module Scenarios {
  import opened Wrappers
  import opened Cart
  import opened Customer
  import opened Order

  const Biryani: string := "Chicken Biryani"
  const Paneer: string := "Paneer Butter Masala"
  const GulabJamun: string := "Gulab Jamun"

  /** Two Chicken Biryani at 180 and three Gulab Jamun at 70. */
  function SampleCart(): (r: seq<CartLine>)
    ensures Invariant(r)
  {
    [CartLine(Biryani, 2, 180), CartLine(GulabJamun, 3, 70)]
  }

  lemma {:induction false} SampleCartTotals()
    ensures TotalItems(SampleCart()) == 5
    ensures TotalAmount(SampleCart()) == 2 * 180 + 3 * 70 == 570
  {
  }

  /** Adding one Paneer Butter Masala and then two more leaves a single line of three. */
  lemma {:induction false} PaneerAddedTwice()
    ensures Added(Added([], Paneer, 150, 1), Paneer, 150, 2) == [CartLine(Paneer, 3, 150)]
  {
    assert Added([], Paneer, 150, 1) == [CartLine(Paneer, 1, 150)];
  }

  /** A missing name is reported alone, and no link is offered. */
  lemma {:induction false} MissingNameBlocksLink()
    ensures Missing(CustomerInfo("", "X", "999")) == [FullNameLabel]
    ensures OrderLink(SampleCart(), CustomerInfo("", "X", "999")) == None
  {
  }

  /** The carts the steps of PaneerSession go through. */
  lemma {:induction false} SessionSteps()
    ensures Added([], Paneer, 150, 1) == [CartLine(Paneer, 1, 150)]
    ensures Added([CartLine(Paneer, 1, 150)], Paneer, 150, 2) == [CartLine(Paneer, 3, 150)]
    ensures Added([CartLine(Paneer, 3, 150)], GulabJamun, 70, 0) == [CartLine(Paneer, 3, 150)]
    ensures Added([CartLine(Paneer, 3, 150)], GulabJamun, 70, 3)
      == [CartLine(Paneer, 3, 150), CartLine(GulabJamun, 3, 70)]
  {
    assert FirstIndex([], Paneer) == None;
    assert FirstIndex([CartLine(Paneer, 1, 150)], Paneer) == Some(0);
    assert FirstIndex([CartLine(Paneer, 3, 150)], GulabJamun) == None;
  }

  /**
   * A session through the cart store: add one Paneer Butter Masala, add two
   * more, try to add zero Gulab Jamun, add three, then remove the first line.
   */
  method PaneerSession() returns (lines: seq<CartLine>)
    ensures lines == [CartLine(GulabJamun, 3, 70)]
  {
    SessionSteps();
    var cart := new CartStore();
    var added := cart.Add(Paneer, 150, 1);
    added := cart.Add(Paneer, 150, 2);
    added := cart.Add(GulabJamun, 70, 0);
    added := cart.Add(GulabJamun, 70, 3);
    assert cart.lines == [CartLine(Paneer, 3, 150), CartLine(GulabJamun, 3, 70)];
    cart.RemoveAt(0);
    lines := cart.lines;
  }

  /**
   * Two catalogue rows may share a name at different prices: adding the
   * second merges into the line of the first, at the price already stored.
   */
  lemma {:induction false} MergeKeepsStoredPrice()
    ensures Added([CartLine(Biryani, 1, 180)], Biryani, 250, 2) == [CartLine(Biryani, 3, 180)]
    ensures TotalAmount(Added([CartLine(Biryani, 1, 180)], Biryani, 250, 2)) == 540
  {
    assert FirstIndex([CartLine(Biryani, 1, 180)], Biryani) == Some(0);
  }
}
