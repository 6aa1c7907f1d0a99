/**
 * The payment-URI codec of the QR scanner: reading a scanned UPI payment URI
 * into a payment record (handleScan) and writing the deep link handed to the
 * payment app (redirectToUPI).
 */
module UpiCodec {
  import opened Common
  import opened JsString
  import opened FormUrlEncoded

  /** Concatenation may be regrouped. */
  lemma AppendAssoc(a: string, b: string, c: string)
    ensures a + b + c == a + (b + c)
  {
  }

  /** The text removed from the scan before it is parsed as a query string. */
  const UpiPrefix: string := "upi://pay?"

  /** The currency used when the scan has no (or an empty) `cu`. */
  const DefaultCurrency: string := "INR"

  /** The note used when the scan has no (or an empty) `tn`. */
  const DefaultNote: string := "Payment via Money Tracker App"

  /** The object stored as scannedData; `None` is JavaScript's `null`. */
  datatype PaymentRecord = PaymentRecord(
    payeeUPI: Option<string>,
    payeeName: Option<string>,
    amount: string,
    currency: string,
    note: string)

  /** JavaScript's `v || fallback` for a string-or-null v: both null and "" are falsy. */
  function OrElse(v: Option<string>, fallback: string): (r: string)
    ensures v.Some? && v.value != "" ==> r == v.value
    ensures v.None? || v.value == "" ==> r == fallback
  {
    if v.Some? && v.value != "" then v.value else fallback
  }

  /** The five fields read from the parsed list: pa and pn as they are, am, cu and tn with their defaults. */
  function Project(ps: seq<Pair>): (r: PaymentRecord)
    ensures r.payeeUPI.None? <==> !HasName(ps, "pa")
    ensures r.payeeUPI.Some? ==> IsFirstValue(ps, "pa", r.payeeUPI.value)
    ensures r.payeeName.None? <==> !HasName(ps, "pn")
    ensures r.payeeName.Some? ==> IsFirstValue(ps, "pn", r.payeeName.value)
    ensures IsFirstValue(ps, "am", r.amount) || (r.amount == "" && !HasName(ps, "am"))
    ensures (r.currency != "" && IsFirstValue(ps, "cu", r.currency))
      || (r.currency == DefaultCurrency && (!HasName(ps, "cu") || IsFirstValue(ps, "cu", "")))
    ensures (r.note != "" && IsFirstValue(ps, "tn", r.note))
      || (r.note == DefaultNote && (!HasName(ps, "tn") || IsFirstValue(ps, "tn", "")))
  {
    PaymentRecord(
      Get(ps, "pa"),
      Get(ps, "pn"),
      OrElse(Get(ps, "am"), ""),
      OrElse(Get(ps, "cu"), DefaultCurrency),
      OrElse(Get(ps, "tn"), DefaultNote))
  }

  /** The record handleScan builds from the scanned text; it never fails. */
  function ParsePayment(data: string): (r: PaymentRecord)
    ensures (forall j: nat :: !OccursAt(data, UpiPrefix, j)) ==> r == Project(SearchParams(data))
    ensures forall i: nat :: IsFirstOccurrence(data, UpiPrefix, i) ==>
                               r == Project(SearchParams(data[..i] + data[i + |UpiPrefix|..]))
    ensures r.currency != "" && r.note != ""
  {
    var query := ReplaceFirst(data, UpiPrefix, "");
    assert forall i: nat :: IsFirstOccurrence(data, UpiPrefix, i) ==>
                              query == data[..i] + data[i + |UpiPrefix|..] by {
      forall i: nat | IsFirstOccurrence(data, UpiPrefix, i)
        ensures query == data[..i] + data[i + |UpiPrefix|..]
      {
        assert query == data[..i] + "" + data[i + |UpiPrefix|..];
        assert data[..i] + "" == data[..i];
      }
    }
    Project(SearchParams(query))
  }

  /** A value as a template literal renders it: null becomes the text "null". */
  function TemplateText(v: Option<string>): (t: string)
    ensures v.None? ==> t == "null"
    ensures v.Some? ==> t == v.value
  {
    match v
    case None => "null"
    case Some(s) => s
  }

  /**
   * The deep link redirectToUPI navigates to: the template's text, part by
   * part, with the values inserted without escaping.
   */
  function PaymentUrl(r: PaymentRecord): (url: string)
    ensures |UpiPrefix| < |url| && url[..|UpiPrefix|] == UpiPrefix
  {
    "upi://pay?" + "pa=" + TemplateText(r.payeeUPI) + "&pn=Merchant" + "&mc=0000" + "&tid=123456" + "&tr=123456"
      + "&tn=" + r.note + "&am=" + r.amount + "&cu=INR"
  }

  /** The eight parameters of the deep link, in order. */
  function UrlFields(r: PaymentRecord): seq<Pair>
  {
    [("pa", TemplateText(r.payeeUPI))] + AfterPayee(r.note, r.amount)
  }

  /** The seven parameters that follow pa. */
  function AfterPayee(tn: string, am: string): seq<Pair>
  {
    [("pn", "Merchant"), ("mc", "0000"), ("tid", "123456"), ("tr", "123456"), ("tn", tn), ("am", am), ("cu", "INR")]
  }

  /** A parameter behind its '&' is the text "&name=" followed by the value. */
  lemma AmpPieceText(name: string, v: string, prefix: string)
    requires "&" + name + "=" == prefix
    ensures "&" + Piece((name, v)) == prefix + v
  {
    AppendAssoc(name, "=", v);
    AppendAssoc("&", name + "=", v);
    AppendAssoc("&", name, "=");
  }

  /** One more parameter in front of a serialised rest, with its separator. */
  lemma AmpSerializeCons(p: Pair, rest: seq<Pair>, piece: string)
    requires |rest| > 0 && "&" + Piece(p) == piece
    ensures "&" + Serialize([p] + rest) == piece + ("&" + Serialize(rest))
  {
    SerializeCons(p, rest);
    AppendAssoc(Piece(p), "&", Serialize(rest));
    AppendAssoc("&", Piece(p), "&" + Serialize(rest));
  }

  /** The parameters tn, am and cu behind an '&', as one right-nested text. */
  lemma SerializeLastThree(tn: string, am: string)
    ensures "&" + Serialize([("tn", tn), ("am", am), ("cu", "INR")]) == "&tn=" + (tn + ("&am=" + (am + "&cu=INR")))
  {
    var f7 := [("cu", "INR")];
    var f6 := [("am", am)] + f7;
    assert [("tn", tn), ("am", am), ("cu", "INR")] == [("tn", tn)] + f6;
    assert "&" + Serialize(f7) == "&cu=INR";
    AmpPieceText("am", am, "&am=");
    AmpSerializeCons(("am", am), f7, "&am=" + am);
    AppendAssoc("&am=", am, "&cu=INR");
    AmpPieceText("tn", tn, "&tn=");
    AmpSerializeCons(("tn", tn), f6, "&tn=" + tn);
    AppendAssoc("&tn=", tn, "&am=" + (am + "&cu=INR"));
  }

  /** The seven parameters after pa behind an '&', as one right-nested text. */
  lemma SerializeAfterPayee(tn: string, am: string)
    ensures "&" + Serialize(AfterPayee(tn, am))
      == "&pn=Merchant" + ("&mc=0000" + ("&tid=123456" + ("&tr=123456" + ("&tn=" + (tn + ("&am=" + (am + "&cu=INR")))))))
  {
    var f5 := [("tn", tn), ("am", am), ("cu", "INR")];
    var f4 := [("tr", "123456")] + f5;
    var f3 := [("tid", "123456")] + f4;
    var f2 := [("mc", "0000")] + f3;
    assert AfterPayee(tn, am) == [("pn", "Merchant")] + f2;
    SerializeLastThree(tn, am);
    AmpSerializeCons(("tr", "123456"), f5, "&tr=123456");
    AmpSerializeCons(("tid", "123456"), f4, "&tid=123456");
    AmpSerializeCons(("mc", "0000"), f3, "&mc=0000");
    AmpSerializeCons(("pn", "Merchant"), f2, "&pn=Merchant");
  }

  /** The template, regrouped to the right. */
  lemma PaymentUrlNested(r: PaymentRecord)
    ensures PaymentUrl(r) == "upi://pay?" + ("pa=" + (TemplateText(r.payeeUPI) + ("&pn=Merchant" + ("&mc=0000"
      + ("&tid=123456" + ("&tr=123456" + ("&tn=" + (r.note + ("&am=" + (r.amount + "&cu=INR"))))))))))
  {
    var pa, tn, am := TemplateText(r.payeeUPI), r.note, r.amount;
    var x0 := "upi://pay?" + "pa=" + pa;
    var x1 := x0 + "&pn=Merchant";
    var x2 := x1 + "&mc=0000";
    var x3 := x2 + "&tid=123456";
    var x4 := x3 + "&tr=123456";
    var x5 := x4 + "&tn=";
    var x6 := x5 + tn;
    var x7 := x6 + "&am=";
    AppendAssoc(x7, am, "&cu=INR");
    AppendAssoc(x6, "&am=", am + "&cu=INR");
    var t7 := "&am=" + (am + "&cu=INR");
    AppendAssoc(x5, tn, t7);
    var t6 := tn + t7;
    AppendAssoc(x4, "&tn=", t6);
    var t5 := "&tn=" + t6;
    AppendAssoc(x3, "&tr=123456", t5);
    var t4 := "&tr=123456" + t5;
    AppendAssoc(x2, "&tid=123456", t4);
    var t3 := "&tid=123456" + t4;
    AppendAssoc(x1, "&mc=0000", t3);
    var t2 := "&mc=0000" + t3;
    AppendAssoc(x0, "&pn=Merchant", t2);
    var t1 := "&pn=Merchant" + t2;
    AppendAssoc("upi://pay?" + "pa=", pa, t1);
    AppendAssoc("upi://pay?", "pa=", pa + t1);
  }

  /** The deep link is the prefix followed by the eight parameters with their values verbatim. */
  lemma PaymentUrlFields(r: PaymentRecord)
    ensures PaymentUrl(r) == UpiPrefix + Serialize(UrlFields(r))
  {
    var pa := TemplateText(r.payeeUPI);
    var rest := AfterPayee(r.note, r.amount);
    var t := "&" + Serialize(rest);
    PaymentUrlNested(r);
    SerializeAfterPayee(r.note, r.amount);
    SerializeCons(("pa", pa), rest);
    AppendAssoc("pa=" + pa, "&", Serialize(rest));
    AppendAssoc("pa=", pa, t);
  }

  /** The payee name and currency of the record never reach the deep link. */
  lemma PaymentUrlIgnoresNameAndCurrency(r: PaymentRecord, name: Option<string>, currency: string)
    ensures PaymentUrl(r.(payeeName := name, currency := currency)) == PaymentUrl(r)
  {
  }

  /** Get finds the pair at index i when no earlier pair has its name. */
  lemma GetAt(ps: seq<Pair>, i: nat)
    requires i < |ps|
    requires forall j :: 0 <= j < i ==> ps[j].0 != ps[i].0
    ensures Get(ps, ps[i].0) == Some(ps[i].1)
  {
    var r := Get(ps, ps[i].0);
    assert HasName(ps, ps[i].0);
    assert IsFirstValue(ps, ps[i].0, ps[i].1);
    FirstValueUnique(ps, ps[i].0, r.value, ps[i].1);
  }

  /** The prefix at the start of a scan is what handleScan removes. */
  lemma RemovePrefix(t: string)
    ensures ReplaceFirst(UpiPrefix + t, UpiPrefix, "") == t
  {
    ReplaceFirstAtStart(UpiPrefix, t, "");
    assert "" + t == t;
  }

  /** Serialised pairs start with the first character of the first name, or with '=' when it is empty. */
  lemma SerializeStart(ps: seq<Pair>)
    requires |ps| > 0
    ensures |Serialize(ps)| > 0
    ensures Serialize(ps)[0] == if ps[0].0 == "" then '=' else ps[0].0[0]
  {
    if |ps| > 1 {
      assert Serialize(ps) == Piece(ps[0]) + ("&" + Serialize(ps[1..]));
    }
  }

  /** A scan that is the prefix followed by plain pairs yields those pairs. */
  lemma ScannedPlainPairs(ps: seq<Pair>)
    requires |ps| > 0 && (ps[0].0 == "" || ps[0].0[0] != '?')
    requires forall i :: 0 <= i < |ps| ==> IsPlainPair(ps[i])
    ensures ParsePayment(UpiPrefix + Serialize(ps)) == Project(ps)
  {
    var t := Serialize(ps);
    RemovePrefix(t);
    SerializeStart(ps);
    SearchParamsLeadingQuestion(t);
    ParseSerialize(ps);
  }

  /** The eight parameters serialise without escaping when the inserted values are plain. */
  lemma UrlFieldsPlain(r: PaymentRecord)
    requires IsPlain(TemplateText(r.payeeUPI)) && IsPlain(r.note) && IsPlain(r.amount)
    ensures forall i :: 0 <= i < |UrlFields(r)| ==> IsPlainPair(UrlFields(r)[i])
  {
    assert IsPlain("Merchant") && IsPlain("0000") && IsPlain("123456") && IsPlain("INR");
  }

  /** get("pa") on the deep link's parameters. */
  lemma GetUrlPayee(r: PaymentRecord)
    ensures Get(UrlFields(r), "pa") == Some(TemplateText(r.payeeUPI))
  {
    GetAt(UrlFields(r), 0);
  }

  /** get("pn") on the deep link's parameters. */
  lemma GetUrlName(r: PaymentRecord)
    ensures Get(UrlFields(r), "pn") == Some("Merchant")
  {
    GetAt(UrlFields(r), 1);
  }

  /** get("tn") on the deep link's parameters. */
  lemma GetUrlNote(r: PaymentRecord)
    ensures Get(UrlFields(r), "tn") == Some(r.note)
  {
    GetAt(UrlFields(r), 5);
  }

  /** get("am") on the deep link's parameters. */
  lemma GetUrlAmount(r: PaymentRecord)
    ensures Get(UrlFields(r), "am") == Some(r.amount)
  {
    GetAt(UrlFields(r), 6);
  }

  /** get("cu") on the deep link's parameters. */
  lemma GetUrlCurrency(r: PaymentRecord)
    ensures Get(UrlFields(r), "cu") == Some("INR")
  {
    GetAt(UrlFields(r), 7);
  }

  /** The record read from the eight parameters. */
  lemma ProjectUrlFields(r: PaymentRecord)
    ensures Project(UrlFields(r)) == PaymentRecord(
      Some(TemplateText(r.payeeUPI)), Some("Merchant"), r.amount, DefaultCurrency,
      if r.note == "" then DefaultNote else r.note)
  {
    GetUrlPayee(r);
    GetUrlName(r);
    GetUrlNote(r);
    GetUrlAmount(r);
    GetUrlCurrency(r);
  }

  /**
   * Reading back a deep link whose inserted values are plain: the payee comes
   * back as its template text, the name is always "Merchant" and the currency
   * always "INR", the amount is unchanged and an empty note becomes the default.
   */
  lemma ParsePaymentUrl(r: PaymentRecord)
    requires IsPlain(TemplateText(r.payeeUPI)) && IsPlain(r.note) && IsPlain(r.amount)
    ensures ParsePayment(PaymentUrl(r)) == PaymentRecord(
      Some(TemplateText(r.payeeUPI)), Some("Merchant"), r.amount, DefaultCurrency,
      if r.note == "" then DefaultNote else r.note)
  {
    PaymentUrlFields(r);
    UrlFieldsPlain(r);
    ScannedPlainPairs(UrlFields(r));
    ProjectUrlFields(r);
  }

  /** The parameters of a link whose note text before + "&am=" + injected splits into two. */
  function InjectedFields(r: PaymentRecord, before: string, injected: string): seq<Pair>
  {
    UrlFields(r)[..5] + [("tn", before), ("am", injected)] + UrlFields(r)[6..]
  }

  /** The note's "&am=" becomes a parameter boundary in the deep link. */
  lemma InjectedFieldsText(r: PaymentRecord, before: string, injected: string)
    requires r.note == before + "&am=" + injected
    ensures PaymentUrl(r) == UpiPrefix + Serialize(InjectedFields(r, before, injected))
  {
    var fs := UrlFields(r);
    PaymentUrlFields(r);
    assert before + "&" + "am" + "=" + injected == r.note by {
      AppendAssoc(before + "&", "am", "=");
      AppendAssoc(before, "&", "am=");
      AppendAssoc(before, "&am=", injected);
      AppendAssoc(before, "&" + "am" + "=", injected);
    }
    assert fs == fs[..5] + [("tn", before + "&" + "am" + "=" + injected)] + fs[6..];
    SerializeSplitValue(fs[..5], "tn", before, "am", injected, fs[6..]);
  }

  /** The split parameters up to the injected amount are plain when the inserted texts are. */
  lemma InjectedFieldsPlain(r: PaymentRecord, before: string, injected: string)
    requires IsPlain(TemplateText(r.payeeUPI)) && IsPlain(before) && IsPlain(injected)
    ensures forall i :: 0 <= i < 7 ==> IsPlainPair(InjectedFields(r, before, injected)[i])
  {
    assert IsPlain("Merchant") && IsPlain("0000") && IsPlain("123456");
  }

  /**
   * The split parameters read back: the seven up to the injected amount come
   * back as they are, followed by whatever the real amount and the currency give.
   */
  lemma InjectedQuery(r: PaymentRecord, before: string, injected: string)
    requires IsPlain(TemplateText(r.payeeUPI)) && IsPlain(before) && IsPlain(injected)
    ensures ParseQuery(Serialize(InjectedFields(r, before, injected)))
         == InjectedFields(r, before, injected)[..7] + ParseQuery(Serialize(InjectedFields(r, before, injected)[7..]))
  {
    var gs := InjectedFields(r, before, injected);
    assert gs == gs[..7] + gs[7..];
    SerializeAppend(gs[..7], gs[7..]);
    ParseQueryConcat(Serialize(gs[..7]), Serialize(gs[7..]));
    InjectedFieldsPlain(r, before, injected);
    ParseSerialize(gs[..7]);
  }

  /** get("am") finds the injected amount, whatever pairs follow the first seven. */
  lemma GetInjectedAmount(r: PaymentRecord, before: string, injected: string, later: seq<Pair>)
    ensures Get(InjectedFields(r, before, injected)[..7] + later, "am") == Some(injected)
  {
    var fs := InjectedFields(r, before, injected)[..7] + later;
    assert fs[6] == ("am", injected);
    assert forall j :: 0 <= j < 6 ==> fs[j].0 != "am";
    GetAt(fs, 6);
  }

  /**
   * Values are not escaped, so a note of the form before + "&am=" + injected
   * adds an `am` parameter ahead of the real one: reading the link back gives
   * the injected amount, whatever the record's amount is.
   */
  lemma InjectedAmountOverrides(r: PaymentRecord, before: string, injected: string)
    requires r.note == before + "&am=" + injected
    requires IsPlain(TemplateText(r.payeeUPI)) && IsPlain(before) && IsPlain(injected)
    ensures ParsePayment(PaymentUrl(r)).amount == injected
  {
    var gs := InjectedFields(r, before, injected);
    var t := Serialize(gs);
    InjectedFieldsText(r, before, injected);
    RemovePrefix(t);
    SerializeStart(gs);
    SearchParamsLeadingQuestion(t);
    InjectedQuery(r, before, injected);
    GetInjectedAmount(r, before, injected, ParseQuery(Serialize(gs[7..])));
  }

  /** The pairs of the complete example. */
  function FullExamplePairs(): seq<Pair>
  {
    [("pa", "alice@bank"), ("pn", "Alice"), ("am", "50"), ("cu", "INR"), ("tn", "Lunch")]
  }

  /** The record read from the pairs of the complete example. */
  lemma ProjectFullExample()
    ensures Project(FullExamplePairs()) == PaymentRecord(Some("alice@bank"), Some("Alice"), "50", "INR", "Lunch")
  {
    GetFullExample(0);
    GetFullExample(1);
    GetFullExample(2);
    GetFullExample(3);
    GetFullExample(4);
  }

  /** get() of any name of the complete example finds its own pair. */
  lemma GetFullExample(i: nat)
    requires i < 5
    ensures Get(FullExamplePairs(), FullExamplePairs()[i].0) == Some(FullExamplePairs()[i].1)
  {
    GetAt(FullExamplePairs(), i);
  }

  /** The pairs of the complete example need no escaping. */
  lemma FullExamplePlain()
    ensures forall i :: 0 <= i < |FullExamplePairs()| ==> IsPlainPair(FullExamplePairs()[i])
  {
  }

  /** A complete payment URI is read field by field. */
  lemma ParseFullExample()
    ensures ParsePayment(UpiPrefix + "pa=alice@bank" + "&pn=Alice" + "&am=50" + "&cu=INR" + "&tn=Lunch")
      == PaymentRecord(Some("alice@bank"), Some("Alice"), "50", "INR", "Lunch")
  {
    var f1 := [("pn", "Alice"), ("am", "50"), ("cu", "INR"), ("tn", "Lunch")];
    assert UpiPrefix + "pa=alice@bank" + "&pn=Alice" + "&am=50" + "&cu=INR" + "&tn=Lunch"
        == UpiPrefix + Serialize(FullExamplePairs()) by {
      assert FullExamplePairs() == [("pa", "alice@bank")] + f1;
      ExampleTextTail();
      SerializeCons(("pa", "alice@bank"), f1);
      var x := UpiPrefix + "pa=alice@bank";
      AppendAssoc(x, "&pn=Alice", "&am=50" + ("&cu=INR" + "&tn=Lunch"));
      AppendAssoc(x + "&pn=Alice", "&am=50", "&cu=INR" + "&tn=Lunch");
      AppendAssoc(x + "&pn=Alice" + "&am=50", "&cu=INR", "&tn=Lunch");
      AppendAssoc("pa=alice@bank", "&", Serialize(f1));
      AppendAssoc(UpiPrefix, "pa=alice@bank", "&" + Serialize(f1));
    }
    FullExamplePlain();
    ScannedPlainPairs(FullExamplePairs());
    ProjectFullExample();
  }

  /** The last four parameters of the complete example. */
  lemma ExampleTextTail()
    ensures "&" + Serialize([("pn", "Alice"), ("am", "50"), ("cu", "INR"), ("tn", "Lunch")])
      == "&pn=Alice" + ("&am=50" + ("&cu=INR" + "&tn=Lunch"))
  {
    var f4 := [("tn", "Lunch")];
    var f3 := [("cu", "INR")] + f4;
    var f2 := [("am", "50")] + f3;
    assert [("pn", "Alice"), ("am", "50"), ("cu", "INR"), ("tn", "Lunch")] == [("pn", "Alice")] + f2;
    AmpSerializeCons(("pn", "Alice"), f2, "&pn=Alice");
    AmpSerializeCons(("am", "50"), f3, "&am=50");
    AmpSerializeCons(("cu", "INR"), f4, "&cu=INR");
    assert "&" + Serialize(f4) == "&tn=Lunch";
  }

  /** The deep link of a record with only a payee, an empty amount and the default note. */
  lemma PaymentUrlPayeeOnlyExample()
    ensures PaymentUrl(PaymentRecord(Some("bob@bank"), None, "", DefaultCurrency, DefaultNote))
      == "upi://pay?pa=bob@bank" + "&pn=Merchant" + "&mc=0000" + "&tid=123456" + "&tr=123456"
         + "&tn=Payment via Money Tracker App" + "&am=" + "&cu=INR"
  {
    var head := "upi://pay?" + "pa=" + "bob@bank";
    assert head == "upi://pay?pa=bob@bank";
    var mid := head + "&pn=Merchant" + "&mc=0000" + "&tid=123456" + "&tr=123456";
    assert "&tn=" + DefaultNote == "&tn=Payment via Money Tracker App";
    AppendAssoc(mid, "&tn=", DefaultNote);
    var tn := mid + "&tn=" + DefaultNote;
    assert tn + "&am=" + "" == tn + "&am=";
  }

  /** A URI with only the payee gets the defaults for every other field. */
  lemma ParsePayeeOnlyExample()
    ensures ParsePayment("upi://pay?pa=bob@bank")
      == PaymentRecord(Some("bob@bank"), None, "", DefaultCurrency, DefaultNote)
  {
    var ps := [("pa", "bob@bank")];
    assert "upi://pay?pa=bob@bank" == UpiPrefix + Serialize(ps);
    ScannedPlainPairs(ps);
    GetAt(ps, 0);
  }
}
