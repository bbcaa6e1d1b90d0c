/**
 * The delivery details of a session and the check that all three required
 * fields are filled in before an order link is offered.
 */
module Customer {

  /** `st.session_state.customer_info`, in the key order of app.py. */
  datatype CustomerInfo = CustomerInfo(name: string, address: string, phone: string)

  /** The record a session starts with: every field empty. */
  const EmptyInfo: CustomerInfo := CustomerInfo("", "", "")

  const FullNameLabel: string := "Full Name"
  const PhoneLabel: string := "Phone Number"
  const AddressLabel: string := "Delivery Address"

  /** The labels of the required fields, in the order they are checked. */
  const Labels: seq<string> := [FullNameLabel, PhoneLabel, AddressLabel]

  /** Whether the field labelled `lbl` is empty in `info`. */
  predicate FieldEmpty(info: CustomerInfo, lbl: string)
  {
    if lbl == FullNameLabel then info.name == ""
    else if lbl == PhoneLabel then info.phone == ""
    else if lbl == AddressLabel then info.address == ""
    else false
  }

  /** The position of a label in Labels. */
  function Rank(lbl: string): nat
  {
    if lbl == FullNameLabel then 0 else if lbl == PhoneLabel then 1 else 2
  }

  /**
   * The labels of the empty fields. A label appears exactly when its field is
   * empty, never twice, and in the order of Labels; the list is empty exactly
   * when every field is filled in.
   */
  function Missing(info: CustomerInfo): (r: seq<string>)
    ensures forall lbl :: lbl in r <==> lbl in Labels && FieldEmpty(info, lbl)
    ensures forall i, j :: 0 <= i < j < |r| ==> Rank(r[i]) < Rank(r[j])
    ensures r == [] <==> info.name != "" && info.phone != "" && info.address != ""
  {
    (if info.name == "" then [FullNameLabel] else [])
    + (if info.phone == "" then [PhoneLabel] else [])
    + (if info.address == "" then [AddressLabel] else [])
  }

  /** A fresh session misses all three fields. */
  lemma EmptyInfoMissesAll()
    ensures Missing(EmptyInfo) == Labels
  {
  }
}
