/**
 * The WhatsApp order: the message assembled line by line from the cart and
 * the delivery details, joined with line breaks, percent-encoded and put
 * behind the fixed `wa.me` address of the caterer.
 */
module Order {
  import opened Wrappers
  import opened Decimal
  import opened Cart
  import opened Customer
  import opened Percent

  const Header: string := "\U{1F371} *NEW CATERING ORDER* \U{1F371}"
  const DetailsHeading: string := "*Customer Details:*"
  const NamePrefix: string := "\U{1F464} Name: "
  const PhonePrefix: string := "\U{1F4DE} Phone: "
  const AddressPrefix: string := "\U{1F3E0} Address: "
  const SummaryHeading: string := "*Order Summary:*"
  const Closing: string := "Please confirm this order. Thank you! \U{1F64F}"

  /** Twenty-five box-drawing characters around the item lines. */
  const Divider: string := "\U{2500}\U{2500}\U{2500}\U{2500}\U{2500}\U{2500}\U{2500}\U{2500}\U{2500}\U{2500}\U{2500}\U{2500}\U{2500}\U{2500}\U{2500}\U{2500}\U{2500}\U{2500}\U{2500}\U{2500}\U{2500}\U{2500}\U{2500}\U{2500}\U{2500}"

  /** The recipient of every order. */
  const WhatsAppNumber: string := "919946294194"

  const LinkPrefix: string := "https://wa.me/" + WhatsAppNumber + "?text="

  const Bullet: string := "\U{2022} "
  const Times: string := " x "
  const EqualsRupee: string := " = \U{20B9}"
  const TotalPrefix: string := "*\U{1F4B0} TOTAL AMOUNT: \U{20B9}"
  const TotalSuffix: string := "*"

  /**
   * `• {qty} x {name} = ₹{qty * price}`: the bullet, the printed quantity,
   * ` x `, the dish name, ` = ₹` and the printed line total, in that order
   * and nothing else (ItemLineReadsBack reads the two numbers back).
   */
  function ItemLine(l: CartLine): (r: string)
    ensures var q, a := IntToDecimal(l.qty), IntToDecimal(l.qty * l.price);
      |r| == |Bullet| + |q| + |Times| + |l.name| + |EqualsRupee| + |a|
    ensures r[..|Bullet|] == Bullet
    ensures var q := IntToDecimal(l.qty);
      && r[|Bullet|..|Bullet| + |q|] == q
      && r[|Bullet| + |q|..|Bullet| + |q| + |Times|] == Times
      && r[|Bullet| + |q| + |Times|..|Bullet| + |q| + |Times| + |l.name|] == l.name
    ensures var a := IntToDecimal(l.qty * l.price);
      && r[|r| - |a| - |EqualsRupee|..|r| - |a|] == EqualsRupee
      && r[|r| - |a|..] == a
  {
    var q, a := IntToDecimal(l.qty), IntToDecimal(l.qty * l.price);
    SixParts(Bullet, q, Times, l.name, EqualsRupee, a);
    Bullet + q + Times + l.name + EqualsRupee + a
  }

  /**
   * The numbers of an item line read back: the one after the bullet as the
   * quantity, the one that ends the line as `qty * price`.
   */
  lemma {:induction false} ItemLineReadsBack(l: CartLine)
    ensures var r, q := ItemLine(l), IntToDecimal(l.qty);
      ParseInt(r[|Bullet|..|Bullet| + |q|]) == Some(l.qty)
    ensures var r, a := ItemLine(l), IntToDecimal(l.qty * l.price);
      ParseInt(r[|r| - |a|..]) == Some(l.qty * l.price)
  {
    IntToDecimalRoundTrip(l.qty);
    IntToDecimalRoundTrip(l.qty * l.price);
  }

  /** The two halves of a concatenation. */
  lemma {:induction false} TwoParts(x: string, y: string)
    ensures (x + y)[..|x|] == x && (x + y)[|x|..] == y
  {
  }

  /** A slice inside a prefix is the same slice of the whole. */
  lemma {:induction false} SliceOfPrefix(r: string, k: nat, i: nat, j: nat)
    requires i <= j <= k <= |r|
    ensures r[..k][i..j] == r[i..j]
  {
  }

  /** Where each of six concatenated texts sits in the whole. */
  lemma {:induction false} SixParts(p: string, q: string, t: string, n: string, e: string, a: string)
    ensures var r := p + q + t + n + e + a;
      && r[..|p|] == p
      && r[|p|..|p| + |q|] == q
      && r[|p| + |q|..|p| + |q| + |t|] == t
      && r[|p| + |q| + |t|..|p| + |q| + |t| + |n|] == n
      && r[|p| + |q| + |t| + |n|..|p| + |q| + |t| + |n| + |e|] == e
      && r[|p| + |q| + |t| + |n| + |e|..] == a
  {
    var r2 := p + q;
    var r3 := r2 + t;
    var r4 := r3 + n;
    var r5 := r4 + e;
    var r := r5 + a;
    TwoParts(r5, a);
    TwoParts(r4, e);
    TwoParts(r3, n);
    TwoParts(r2, t);
    TwoParts(p, q);
    SliceOfPrefix(r, |r5|, |r4|, |r5|);
    SliceOfPrefix(r, |r5|, |r3|, |r4|);
    SliceOfPrefix(r5, |r4|, |r3|, |r4|);
    SliceOfPrefix(r, |r5|, |r2|, |r3|);
    SliceOfPrefix(r5, |r4|, |r2|, |r3|);
    SliceOfPrefix(r4, |r3|, |r2|, |r3|);
    SliceOfPrefix(r, |r5|, |p|, |r2|);
    SliceOfPrefix(r5, |r4|, |p|, |r2|);
    SliceOfPrefix(r4, |r3|, |p|, |r2|);
    SliceOfPrefix(r3, |r2|, |p|, |r2|);
    SliceOfPrefix(r, |r5|, 0, |p|);
    SliceOfPrefix(r5, |r4|, 0, |p|);
    SliceOfPrefix(r4, |r3|, 0, |p|);
    SliceOfPrefix(r3, |r2|, 0, |p|);
    SliceOfPrefix(r2, |p|, 0, |p|);
  }

  /**
   * `*💰 TOTAL AMOUNT: ₹{total}*`: between the fixed prefix and the closing
   * `*` stands a numeral that reads back as the total.
   */
  function TotalLine(total: int): (r: string)
    ensures |r| == |TotalPrefix| + |IntToDecimal(total)| + |TotalSuffix|
    ensures r[..|TotalPrefix|] == TotalPrefix && r[|r| - |TotalSuffix|..] == TotalSuffix
    ensures ParseInt(r[|TotalPrefix|..|r| - |TotalSuffix|]) == Some(total)
  {
    var t := IntToDecimal(total);
    var r := TotalPrefix + t + TotalSuffix;
    IntToDecimalRoundTrip(total);
    assert r[..|TotalPrefix|] == TotalPrefix;
    assert r[|TotalPrefix|..|r| - |TotalSuffix|] == t;
    assert r[|r| - |TotalSuffix|..] == TotalSuffix;
    r
  }

  /** The lines before the items: header, delivery details, summary heading. */
  function HeadLines(info: CustomerInfo): (r: seq<string>)
    ensures |r| == 9
    ensures r[0] == Header && r[1] == "" && r[2] == DetailsHeading
    ensures r[6] == "" && r[7] == SummaryHeading && r[8] == Divider
    ensures NamePrefix <= r[3] && r[3][|NamePrefix|..] == info.name
    ensures PhonePrefix <= r[4] && r[4][|PhonePrefix|..] == info.phone
    ensures AddressPrefix <= r[5] && r[5][|AddressPrefix|..] == info.address
  {
    var name, phone, address := NamePrefix + info.name, PhonePrefix + info.phone, AddressPrefix + info.address;
    assert name[..|NamePrefix|] == NamePrefix && name[|NamePrefix|..] == info.name;
    assert phone[..|PhonePrefix|] == PhonePrefix && phone[|PhonePrefix|..] == info.phone;
    assert address[..|AddressPrefix|] == AddressPrefix && address[|AddressPrefix|..] == info.address;
    [Header, "", DetailsHeading, name, phone, address, "", SummaryHeading, Divider]
  }

  /** One line per cart line, in cart order. */
  function ItemLines(cart: seq<CartLine>): (r: seq<string>)
    ensures |r| == |cart|
    ensures forall k :: 0 <= k < |cart| ==> r[k] == ItemLine(cart[k])
    decreases |cart|
  {
    if cart == [] then [] else [ItemLine(cart[0])] + ItemLines(cart[1..])
  }

  /** The lines after the items: divider, total, blank line, closing line. */
  function TailLines(total: int): (r: seq<string>)
    ensures |r| == 4
    ensures r[0] == Divider && r[1] == TotalLine(total) && r[2] == "" && r[3] == Closing
  {
    [Divider, TotalLine(total), "", Closing]
  }

  /** The `order_lines` list. */
  function OrderLines(cart: seq<CartLine>, info: CustomerInfo): (r: seq<string>)
    ensures |r| == |cart| + 13
  {
    HeadLines(info) + ItemLines(cart) + TailLines(TotalAmount(cart))
  }

  lemma {:induction false} SplitThree<T>(a: seq<T>, b: seq<T>, c: seq<T>)
    ensures (a + b + c)[..|a|] == a
    ensures (a + b + c)[|a|..|a| + |b|] == b
    ensures (a + b + c)[|a| + |b|..] == c
  {
  }

  /**
   * The order lines are the nine head lines, then an item line for every cart
   * line in cart order, then the divider, the total of the whole cart, a
   * blank line and the closing line.
   */
  lemma {:induction false} OrderLinesShape(cart: seq<CartLine>, info: CustomerInfo)
    ensures |OrderLines(cart, info)| == |cart| + 13
    ensures OrderLines(cart, info)[..9] == HeadLines(info)
    ensures OrderLines(cart, info)[9..|cart| + 9] == ItemLines(cart)
    ensures OrderLines(cart, info)[|cart| + 9..] == TailLines(TotalAmount(cart))
    ensures OrderLines(cart, info)[|cart| + 10] == TotalLine(TotalAmount(cart))
  {
    SplitThree(HeadLines(info), ItemLines(cart), TailLines(TotalAmount(cart)));
    assert OrderLines(cart, info)[|cart| + 10] == TailLines(TotalAmount(cart))[1];
  }

  /**
   * The total line of the order states the cart's total amount: the numeral
   * between its fixed prefix and the closing `*` reads back as `TotalAmount`.
   */
  lemma {:induction false} OrderTotalReadsBack(cart: seq<CartLine>, info: CustomerInfo)
    ensures var t := OrderLines(cart, info)[|cart| + 10];
      && |TotalPrefix| + |TotalSuffix| <= |t|
      && t[..|TotalPrefix|] == TotalPrefix
      && ParseInt(t[|TotalPrefix|..|t| - |TotalSuffix|]) == Some(TotalAmount(cart))
  {
    OrderLinesShape(cart, info);
  }

  /** `"\n".join(lines)` */
  function Join(lines: seq<string>): string
    decreases |lines|
  {
    if lines == [] then ""
    else if |lines| == 1 then lines[0]
    else lines[0] + "\n" + Join(lines[1..])
  }

  /** Cuts a text at every line break, as `str.split("\n")` does. */
  function SplitLines(s: string): (r: seq<string>)
    ensures |r| >= 1
    decreases |s|
  {
    if s == [] then [""]
    else
      var rest := SplitLines(s[1..]);
      if s[0] == '\n' then [""] + rest else [[s[0]] + rest[0]] + rest[1..]
  }

  /** The message handed to the messaging service. */
  function Message(cart: seq<CartLine>, info: CustomerInfo): string
  {
    Join(OrderLines(cart, info))
  }

  /**
   * The deep link, offered only when the cart is not empty and nothing is
   * missing from the delivery details. The text after the fixed prefix is
   * the percent-encoded message: it has the shape of a `quote` result and
   * decodes back to the message.
   */
  function OrderLink(cart: seq<CartLine>, info: CustomerInfo): (r: Option<string>)
    ensures r.Some? <==> cart != [] && Missing(info) == []
    ensures r.Some? ==> LinkPrefix <= r.value
    ensures r.Some? ==> IsQuoted(r.value[|LinkPrefix|..])
    ensures r.Some? ==> Unquote(r.value[|LinkPrefix|..]) == Some(Message(cart, info))
  {
    if cart == [] || Missing(info) != [] then None
    else
      var encoded := Quote(Message(cart, info));
      UnquoteQuote(Message(cart, info));
      assert (LinkPrefix + encoded)[|LinkPrefix|..] == encoded;
      Some(LinkPrefix + encoded)
  }

  // ---------------------------------------------------------------------
  // Reading the lines back out of the message
  // ---------------------------------------------------------------------

  predicate NoBreak(s: string) { '\n' !in s }

  /** A text without a line break only extends the first line it is put before. */
  lemma {:induction false} SplitLinesPrefix(a: string, s: string)
    requires NoBreak(a)
    ensures SplitLines(a + s) == [a + SplitLines(s)[0]] + SplitLines(s)[1..]
    decreases |a|
  {
    if a != [] {
      assert (a + s)[1..] == a[1..] + s;
      assert a[0] != '\n';
      SplitLinesPrefix(a[1..], s);
      assert [a[0]] + (a[1..] + SplitLines(s)[0]) == a + SplitLines(s)[0];
    } else {
      var r := SplitLines(s);
      assert a + s == s && a + r[0] == r[0];
      assert r == [r[0]] + r[1..];
    }
  }

  /** Splitting the join of break-free lines gives the lines back. */
  lemma {:induction false} SplitJoin(lines: seq<string>)
    requires |lines| >= 1 && AllNoBreak(lines)
    ensures SplitLines(Join(lines)) == lines
    decreases |lines|
  {
    if |lines| == 1 {
      SplitLinesPrefix(lines[0], "");
      assert SplitLines("") == [""];
      assert lines[0] + "" == lines[0];
      assert lines == [lines[0]];
    } else {
      var rest := Join(lines[1..]);
      SplitJoin(lines[1..]);
      assert Join(lines) == lines[0] + ("\n" + rest);
      SplitLinesPrefix(lines[0], "\n" + rest);
      assert ("\n" + rest)[0] == '\n' && ("\n" + rest)[1..] == rest;
      assert SplitLines("\n" + rest) == [""] + lines[1..];
      assert lines[0] + "" == lines[0];
      assert lines == [lines[0]] + lines[1..];
    }
  }

  lemma {:induction false} NoBreakConcat(a: string, b: string)
    requires NoBreak(a) && NoBreak(b)
    ensures NoBreak(a + b)
  {
    assert forall i :: 0 <= i < |a + b| ==> (a + b)[i] == if i < |a| then a[i] else b[i - |a|];
  }

  /** The fixed texts of the head lines have no line break. */
  lemma {:induction false} HeadTextNoBreak()
    ensures NoBreak(Header) && NoBreak(DetailsHeading) && NoBreak(SummaryHeading)
    ensures NoBreak(NamePrefix) && NoBreak(PhonePrefix) && NoBreak(AddressPrefix)
  {
    assert NoBreak(Header);
    assert NoBreak(DetailsHeading);
    assert NoBreak(SummaryHeading);
    assert NoBreak(NamePrefix);
    assert NoBreak(PhonePrefix);
    assert NoBreak(AddressPrefix);
  }

  /** The fixed texts of the tail lines have no line break. */
  lemma {:induction false} TailTextNoBreak()
    ensures NoBreak(Divider) && NoBreak(Closing) && NoBreak(TotalPrefix) && NoBreak(TotalSuffix)
  {
    assert NoBreak(Divider);
    assert NoBreak(Closing);
    assert NoBreak(TotalPrefix);
    assert NoBreak(TotalSuffix);
  }

  /** The fixed texts of an item line have no line break. */
  lemma {:induction false} ItemTextNoBreak()
    ensures NoBreak(Bullet) && NoBreak(Times) && NoBreak(EqualsRupee)
  {
    assert NoBreak(Bullet);
    assert NoBreak(Times);
    assert NoBreak(EqualsRupee);
  }

  lemma {:induction false} ItemLineNoBreak(l: CartLine)
    requires NoBreak(l.name)
    ensures NoBreak(ItemLine(l))
  {
    var qty, amount := IntToDecimal(l.qty), IntToDecimal(LineAmount(l));
    IntToDecimalNoNewline(l.qty);
    IntToDecimalNoNewline(LineAmount(l));
    ItemTextNoBreak();
    NoBreakConcat(Bullet, qty);
    NoBreakConcat(Bullet + qty, Times);
    NoBreakConcat(Bullet + qty + Times, l.name);
    NoBreakConcat(Bullet + qty + Times + l.name, EqualsRupee);
    NoBreakConcat(Bullet + qty + Times + l.name + EqualsRupee, amount);
  }

  predicate AllNoBreak(lines: seq<string>)
  {
    forall i :: 0 <= i < |lines| ==> NoBreak(lines[i])
  }

  lemma {:induction false} AllNoBreakConcat(a: seq<string>, b: seq<string>)
    requires AllNoBreak(a) && AllNoBreak(b)
    ensures AllNoBreak(a + b)
  {
    forall i | 0 <= i < |a + b| ensures NoBreak((a + b)[i]) {
      if i >= |a| { assert (a + b)[i] == b[i - |a|]; }
    }
  }

  lemma {:induction false} HeadLinesNoBreak(info: CustomerInfo)
    requires NoBreak(info.name) && NoBreak(info.phone) && NoBreak(info.address)
    ensures AllNoBreak(HeadLines(info))
  {
    HeadTextNoBreak();
    TailTextNoBreak();
    NoBreakConcat(NamePrefix, info.name);
    NoBreakConcat(PhonePrefix, info.phone);
    NoBreakConcat(AddressPrefix, info.address);
  }

  lemma {:induction false} TailLinesNoBreak(total: int)
    ensures AllNoBreak(TailLines(total))
  {
    TailTextNoBreak();
    IntToDecimalNoNewline(total);
    NoBreakConcat(TotalPrefix, IntToDecimal(total));
    NoBreakConcat(TotalPrefix + IntToDecimal(total), TotalSuffix);
  }

  /** Every order line is free of line breaks when the fields and names are. */
  lemma {:induction false} OrderLinesNoBreak(cart: seq<CartLine>, info: CustomerInfo)
    requires NoBreak(info.name) && NoBreak(info.phone) && NoBreak(info.address)
    requires forall k :: 0 <= k < |cart| ==> NoBreak(cart[k].name)
    ensures AllNoBreak(OrderLines(cart, info))
  {
    HeadLinesNoBreak(info);
    forall k | 0 <= k < |cart| ensures NoBreak(ItemLines(cart)[k]) {
      ItemLineNoBreak(cart[k]);
    }
    TailLinesNoBreak(TotalAmount(cart));
    AllNoBreakConcat(HeadLines(info), ItemLines(cart));
    AllNoBreakConcat(HeadLines(info) + ItemLines(cart), TailLines(TotalAmount(cart)));
  }

  /**
   * When no delivery field and no dish name holds a line break, the lines of
   * the message are exactly the order lines: so its line 9 + k is the item
   * line of cart line k, and line |cart| + 10 states the cart's total.
   */
  lemma {:induction false} MessageLines(cart: seq<CartLine>, info: CustomerInfo)
    requires NoBreak(info.name) && NoBreak(info.phone) && NoBreak(info.address)
    requires forall k :: 0 <= k < |cart| ==> NoBreak(cart[k].name)
    ensures SplitLines(Message(cart, info)) == OrderLines(cart, info)
  {
    OrderLinesShape(cart, info);
    OrderLinesNoBreak(cart, info);
    SplitJoin(OrderLines(cart, info));
  }

  /**
   * The link is the fixed prefix followed by the one text of the `quote`
   * shape that decodes to the message: any such text is the one in the link.
   */
  lemma {:induction false} LinkIsCanonical(cart: seq<CartLine>, info: CustomerInfo, encoded: string)
    requires OrderLink(cart, info).Some?
    requires IsQuoted(encoded) && Unquote(encoded) == Some(Message(cart, info))
    ensures OrderLink(cart, info).value == LinkPrefix + encoded
  {
    QuoteUnquote(encoded);
  }
}
