# Catering menu: cart, validation and WhatsApp order link

A Dafny model of the order logic of the Streamlit catering app (`app.py`).
The app keeps a cart of `{name, qty, price}` lines in the session. "Add to
Cart" merges a dish into the cart by name. "Remove" pops a line by index.
After every change the item and amount totals are recomputed from the cart.
The app collects the delivery details (name, phone, address) and lists the
labels of the empty ones. Once the cart is non-empty and nothing is missing,
it assembles a plain-text order, joins its lines with line breaks,
percent-encodes it with `urllib.parse.quote` and appends it to a fixed
`https://wa.me/919946294194?text=` link.

Modules, one per part of the logic:

- `Cart` (cart.dfy): the `CartLine` datatype and the totals.
  - `Added` and `Removed` are the specification functions of the two cart
    operations.
  - The class `CartStore` holds the lines as a `seq` field. Its methods
    change that field in place, as the session list is changed in the app.
    `Add` keeps the source's linear scan with a `found` flag and `break`.
  - The invariant is that names are pairwise distinct and every quantity is
    positive. Both operations preserve it.
- `Customer` (customer.dfy): the `CustomerInfo` record and `Missing`, the
  ordered list of missing-field labels.
- `Order` (order.dfy): the message lines, `Join` (`"\n".join`), the message
  and the gated link. `SplitLines` is the partner of `Join`: splitting the
  message at line breaks gives back the order lines.
- `Utf8` (utf8.dfy) and `Percent` (percent.dfy): `quote` with its defaults.
  It UTF-8 encodes the text. It keeps unreserved characters (section 2.3 of
  RFC 3986) and `/`. Every other byte becomes `%XX` with upper-case
  hexadecimal digits (section 2.1 of RFC 3986). Each encoder has a strict
  decoder, and the round trips are proved.
- `Decimal` (decimal.dfy): how an f-string prints an `int`, with a parser
  that reads the numeral back.
- `Scenarios` (scenarios.dfy): the sample dishes of `excel.py` used as
  concrete inputs, and a session that drives `CartStore`.

Prices and quantities are unbounded integers. One add takes a quantity of
0..20, the bounds of the quantity widget. Text is a sequence of Unicode
scalar values, so the emoji, `•`, `₹` and `─` of the message are single
characters, and `quote` works on their UTF-8 bytes.

Some facts about `app.py` that shape the model:
- The cart has no clear operation. It only grows by adds and shrinks by
  removals.
- The delivery details are validated again on every page run. There is no
  confirmation flag. `missing_info` is an ordered list, and so is `Missing`.
- The removal index always comes from `enumerate(cart)`, so `RemoveAt`
  requires it to be in range.
- Catalogue rows are keyed by an `id` (app.py:99,103), but an add merges by
  name alone (app.py:108-109). Adding a second row with the same name merges
  into the existing line. That line keeps the price it already has, and the
  new row's price is ignored. `Cart.ChargedPrice` names the price an add is
  charged at, and `Scenarios.MergeKeepsStoredPrice` shows the case.

## Model

| member | source | states |
|---|---|---|
| `Cart.CartStore.constructor` | app.py:34-35 | a session starts with an empty cart, which satisfies the cart invariant |
| `Cart.CartStore.Add` | app.py:103-123 | the new cart is `Added(old cart, name, price, qty)`; the result is true exactly when `qty > 0`; the cart invariant is kept |
| `Cart.CartStore.RemoveAt` | app.py:148-149 | for an index of a displayed line, the new cart is `Removed(old cart, i)`; the cart invariant is kept |
| `Cart.FirstIndex` | app.py:106-111 | the index where the scan stops holds a line of that name, and no earlier line has it; None means no line has it |
| `Cart.Added` | app.py:104-118 | the cart grows by one line exactly when a positive quantity finds no line of the dish; existing lines keep their names and prices; after a positive add the dish is on some line |
| `Cart.Removed` | app.py:149 | one line shorter; lines before `i` are unchanged; lines after `i` move down one place, keeping their order |
| `Cart.TotalAmount` | app.py:133 | the sum of `qty * price` over the lines; never negative when no quantity and no price is |
| `Cart.TotalItems` | app.py:134 | the sum of `qty` over the lines; at least the number of lines when every quantity is positive |
| `Cart.AddExisting` | app.py:106-111 | adding a dish that is in the cart (names distinct, `qty > 0`): that line's quantity grows by exactly `qty`; its name and price stay; every other line and the length are unchanged |
| `Cart.AddNew` | app.py:113-118 | adding a dish that is not in the cart with `qty > 0` appends `{name, qty, price}` as the last line; earlier lines are unchanged; the length grows by one |
| `Cart.AddZero` | app.py:104-123 | an add with quantity 0 leaves the cart unchanged |
| `Cart.AddedKeepsInvariant` | app.py:106-118 | adding keeps the names pairwise distinct and the quantities positive |
| `Cart.AddedQuantities` | app.py:106-118 | after an add, the added dish's quantity over the cart grows by `qty`; every other dish's is unchanged; with `qty > 0` the dish is on exactly one line |
| `Cart.AddAllMerges` | app.py:103-121 | any run of adds of one dish keeps the invariant; the dish's quantity grows by the sum of the added quantities; once that sum is positive, the dish has exactly one line |
| `Cart.AddedTotals` | app.py:103-134 | after any add of `qty`, the total items grow by `qty` and the total amount by `qty` times the charged price: the stored price of the line the add merges into, or the dish's own price for a new line |
| `Cart.AddedTotalsAtPrice` | app.py:103-134 | when every line of the dish already carries the dish's price `p`, the amount grows by exactly `qty * p` |
| `Cart.RemovedKeepsInvariant` | app.py:149 | removing a line keeps the names pairwise distinct and the quantities positive |
| `Cart.RemovedTotals` | app.py:133-149 | after removing line `i` of any cart, the amount drops by `qty * price` of that line and the items drop by its `qty` |
| `Cart.RemovedDish` | app.py:149 | in a cart with distinct names, the removed line's dish no longer appears after the removal |
| `Customer.Missing` | app.py:186-192 | a label is listed exactly when its field is empty; labels come in the order Full Name, Phone Number, Delivery Address; the list is empty exactly when all three fields are non-empty |
| `Customer.EmptyInfoMissesAll` | app.py:36-37 | the initial all-empty record misses all three fields |
| `Decimal.NatToDecimal` | app.py:211 | a non-empty string of digits with no leading zero |
| `Decimal.IntToDecimal` | app.py:214 | a leading minus exactly for negative numbers, then only digits, with no leading zero (zero prints as `0`) |
| `Decimal.IntToDecimalRoundTrip` | app.py:211 | the printed form of every integer parses back to that integer |
| `Decimal.IntToDecimalNoNewline` | app.py:211 | a printed integer holds no line break |
| `Order.ItemLine` | app.py:210-211 | the line is exactly: the bullet, the printed quantity, ` x `, the dish name, ` = ₹`, and the printed `qty * price`, with nothing else |
| `Order.ItemLineReadsBack` | app.py:210-211 | the numeral after the bullet reads back as the quantity, and the numeral that ends the line reads back as `qty * price` |
| `Order.TotalLine` | app.py:214 | the line is exactly: the fixed total prefix, the printed total (which reads back as the total), then the closing `*` |
| `Order.HeadLines` | app.py:199-207 | nine lines in order: the header, a blank line, the details heading, the name, phone and address lines (each its label followed by the customer's field), a blank line, the summary heading and the divider |
| `Order.ItemLines` | app.py:209-211 | one item line `• qty x name = ₹qty*price` per cart line, in cart order |
| `Order.TailLines` | app.py:213-216 | four lines in order: the divider, the total line of the given total, a blank line and the closing line |
| `Order.OrderLines` | app.py:198-216 | the `order_lines` list has `|cart| + 13` lines |
| `Order.OrderLinesShape` | app.py:198-216 | `|cart| + 13` lines: the nine head lines, then line `9 + k` is the item line of cart line `k`, then the divider, then a total line carrying the cart's `TotalAmount`, a blank line and the closing line |
| `Order.OrderTotalReadsBack` | app.py:214 | line `|cart| + 10` of the order is the total line, and the numeral in it reads back as the cart's `TotalAmount`, the same aggregate the cart view shows |
| `Order.OrderLink` | app.py:194-222 | a link exists exactly when the cart is non-empty and nothing is missing; it starts with the fixed `wa.me` prefix; the rest has the `quote` shape (safe characters kept, every other byte escaped as upper-case `%XX`) and decodes back to the message |
| `Order.SplitJoin` | app.py:218 | splitting `Join(lines)`, the `"\n"`-join, at its line breaks gives back the lines, when there is at least one line and none holds a break |
| `Order.HeadLinesNoBreak` | app.py:199-207 | the nine head lines (`HeadLines`: header, details heading, name, phone and address lines, summary heading, divider) hold no line break when the three fields hold none |
| `Order.TailLinesNoBreak` | app.py:213-216 | the four tail lines (`TailLines`: divider, total line, blank line, closing line) hold no line break |
| `Order.OrderLinesNoBreak` | app.py:198-216 | when no delivery field and no dish name holds a line break, no order line does |
| `Order.MessageLines` | app.py:198-218 | under the same condition, the lines of `Message` (the joined order lines) are exactly the order lines |
| `Order.LinkIsCanonical` | app.py:218-222 | a link is the fixed prefix followed by the one text of the `quote` shape that decodes to the message |
| `Utf8.EncodeChar` | app.py:219 | each character takes one to four UTF-8 bytes, and one exactly when it is ASCII |
| `Utf8.DecodeEncodeChar` | app.py:219 | the head character of an encoding is decoded back whole, whatever bytes follow it |
| `Utf8.DecodeEncode` | app.py:219 | decoding the UTF-8 encoding of a text gives the text back |
| `Utf8.Encode` | app.py:219 | the UTF-8 encoding of a text is at least as long as the text and at most four times as long |
| `Utf8.EncodeDecodeChar` | app.py:219 | a character decoded from the head of a byte sequence is encoded as exactly the bytes it took |
| `Utf8.EncodeDecode` | app.py:219 | well-formed UTF-8 is the encoding of the text it decodes to, so a text has only one encoding |
| `Percent.HexDigit` | app.py:219 | escapes use upper-case hexadecimal digits |
| `Percent.QuoteByte` | app.py:219 | a safe byte stays one character and any other byte becomes a three-character escape; the result has the `quote` shape |
| `Percent.QuoteBytes` | app.py:219 | the encoding of any byte sequence has the `quote` shape: safe characters, and upper-case `%XX` escapes only of bytes that are not safe |
| `Percent.Quote` | app.py:219 | `quote(text)` keeps unreserved characters and `/` as they are and escapes every other byte as upper-case `%XX` |
| `Percent.UnquoteQuoteByte` | app.py:219 | a single byte's encoding decodes back to that byte, whatever text follows it |
| `Percent.UnquoteQuoteBytes` | app.py:219 | percent-decoding the encoding of a byte sequence gives the bytes back |
| `Percent.UnquoteQuote` | app.py:219 | `Unquote(Quote(text)) == Some(text)` for every text |
| `Percent.QuoteUnquoteBytes` | app.py:219 | a text of the `quote` shape decodes, and re-encoding the bytes gives the same text: the shape fixes the encoding |
| `Percent.QuoteUnquote` | app.py:219 | `Quote(Unquote(s)) == s` for every text `s` of the `quote` shape that decodes to a text |
| `Scenarios.SampleCart` | excel.py:5-29 | two Chicken Biryani at 180 and three Gulab Jamun at 70 form a valid cart |
| `Scenarios.SampleCartTotals` | app.py:133-134 | that cart has 5 items and an amount of 2×180 + 3×70 = 570 |
| `Scenarios.PaneerAddedTwice` | app.py:103-118 | adding 1 and then 2 Paneer Butter Masala to an empty cart gives one line of 3 |
| `Scenarios.MissingNameBlocksLink` | app.py:186-196 | with an empty name only "Full Name" is missing, and no link is produced |
| `Scenarios.PaneerSession` | app.py:103-149 | a session through `CartStore` (add 1 and 2 Paneer Butter Masala, add 0 and then 3 Gulab Jamun, remove line 0) ends with one line of 3 Gulab Jamun at 70 |
| `Scenarios.MergeKeepsStoredPrice` | app.py:106-111 | adding 2 Chicken Biryani at 250 to a line of 1 at 180 gives one line of 3 at 180, with amount 540 |

## Left out

- Loading the catalogue from `catalog.xlsx`, its caching, and the halt on an empty or missing file (app.py:15-31). This is file I/O. A dish reaches the model only as the `name` and `price` passed to `CartStore.Add`.
- Image lookup, the PIL resize and the placeholder fallback (app.py:78-88). This is filesystem and imaging work.
- All Streamlit rendering: page setup, CSS, headers, columns, the success, warning and error messages, `st.rerun`, the HTML button and the footer. `Add` returns false where the app shows its "Please select quantity" warning.
- The text widgets that write the delivery details (app.py:167-183). The model takes the resulting record as an input.
- `excel.py`, which writes the sample files with pandas. Its three dishes appear only as test values in `Scenarios`.
- Non-integer prices: a price read from a spreadsheet could be a float. Prices are integers here, so no floating point is modelled.
- The decoders `Utf8.Decode` and `Percent.UnquoteBytes` are strict partners of the encoders, written to state the round trips. They are not Python's `unquote`, which also accepts malformed escapes.
- Determinism of the message: building twice from the same cart and details gives the same text. Here this holds by construction, because `Message` and `OrderLink` are functions of their inputs. A lemma saying so would hold of any function, so none is stated.
- `Order.MessageLines` requires that no delivery field and no dish name contains a line break. The address comes from a multi-line text area, and with a break in it the message has more lines than `OrderLines`.
