/**
 * The QR scanner component's state: whether the camera is scanning and the
 * payment record of the last successful scan, with the handlers that change
 * them (handleScan, startScanning, stopScanning) and the one that reads them
 * (redirectToUPI).
 */
module QrScanner {
  import opened Common
  import opened UpiCodec
  import opened FormUrlEncoded

  /** The component's two pieces of state, as values. */
  datatype ScannerState = ScannerState(isScanning: bool, scannedData: Option<PaymentRecord>)

  /** The state on mount: not scanning and nothing scanned. */
  const Initial: ScannerState := ScannerState(false, None)

  /**
   * What a stored record always satisfies: handleScan fills currency and note
   * with defaults. It is a documented invariant: the constructor establishes
   * it, every handler keeps it (TransitionsKeepValid), and no operation needs
   * it to be correct.
   */
  ghost predicate Valid(s: ScannerState)
  {
    s.scannedData.Some? ==> s.scannedData.value.currency != "" && s.scannedData.value.note != ""
  }

  /** JavaScript truthiness of the scanned text: null and "" are falsy. */
  predicate Truthy(data: Option<string>)
  {
    data.Some? && data.value != ""
  }

  /** startScanning: scanning is switched on and the stored record is kept. */
  function Start(s: ScannerState): (r: ScannerState)
    ensures r.isScanning && r.scannedData == s.scannedData
  {
    s.(isScanning := true)
  }

  /** stopScanning: scanning is switched off and the stored record is kept. */
  function Stop(s: ScannerState): (r: ScannerState)
    ensures !r.isScanning && r.scannedData == s.scannedData
  {
    s.(isScanning := false)
  }

  /**
   * handleScan: a truthy scan stores exactly the record parsed from it and
   * switches scanning off; a null or empty scan changes nothing.
   */
  function Scan(s: ScannerState, data: Option<string>): (r: ScannerState)
    ensures Truthy(data) ==> !r.isScanning && r.scannedData == Some(ParsePayment(data.value))
    ensures !Truthy(data) ==> r == s
  {
    if Truthy(data) then ScannerState(false, Some(ParsePayment(data.value))) else s
  }

  /** redirectToUPI: the deep link to navigate to, or nothing when no record is stored. */
  function Redirect(s: ScannerState): (url: Option<string>)
    ensures url.None? <==> s.scannedData.None?
    ensures url.Some? ==> url.value == PaymentUrl(s.scannedData.value)
  {
    match s.scannedData
    case None => None
    case Some(r) => Some(PaymentUrl(r))
  }

  /** The initial state is valid and offers no deep link. */
  lemma InitialState()
    ensures Valid(Initial) && !Initial.isScanning && Redirect(Initial) == None
  {
  }

  /** A second startScanning changes nothing. */
  lemma StartIdempotent(s: ScannerState)
    ensures Start(Start(s)) == Start(s)
  {
  }

  /** A second stopScanning changes nothing. */
  lemma StopIdempotent(s: ScannerState)
    ensures Stop(Stop(s)) == Stop(s)
  {
  }

  /** Stopping after starting is the same as stopping, and the other way round. */
  lemma StartStop(s: ScannerState)
    ensures Stop(Start(s)) == Stop(s) && Start(Stop(s)) == Start(s)
  {
  }

  /** Every transition keeps the stored record's currency and note non-empty. */
  lemma TransitionsKeepValid(s: ScannerState, data: Option<string>)
    requires Valid(s)
    ensures Valid(Start(s)) && Valid(Stop(s)) && Valid(Scan(s, data))
  {
    if Truthy(data) {
      var r := ParsePayment(data.value);
      assert r.currency != "" && r.note != "";
    }
  }

  /** After a truthy scan the deep link is built from the record just parsed, whatever was stored before. */
  lemma RedirectAfterScan(s: ScannerState, data: string)
    requires data != ""
    ensures Redirect(Scan(s, Some(data))) == Some(PaymentUrl(ParsePayment(data)))
  {
  }

  /**
   * Scanning the deep link of a stored record whose payee, note and amount
   * are plain texts stores a record with the same payee text and amount, the
   * fixed name "Merchant", the currency "INR" and the note (or its default).
   */
  lemma RescanRedirect(s: ScannerState)
    requires s.scannedData.Some?
    requires IsPlain(TemplateText(s.scannedData.value.payeeUPI))
    requires IsPlain(s.scannedData.value.note) && IsPlain(s.scannedData.value.amount)
    ensures Redirect(s).Some?
    ensures Scan(s, Redirect(s)).scannedData == Some(PaymentRecord(
      Some(TemplateText(s.scannedData.value.payeeUPI)), Some("Merchant"), s.scannedData.value.amount,
      DefaultCurrency, if s.scannedData.value.note == "" then DefaultNote else s.scannedData.value.note))
  {
    var r := s.scannedData.value;
    ParsePaymentUrl(r);
  }

  /** The component, whose methods are the handlers that call the state setters. */
  class Scanner {
    var isScanning: bool
    var scannedData: Option<PaymentRecord>

    /** The two fields as one value. */
    function State(): ScannerState
      reads this
    {
      ScannerState(isScanning, scannedData)
    }

    /** Mounting the component: useState(false) and useState(null). */
    constructor ()
      ensures State() == Initial && Valid(State())
    {
      isScanning := false;
      scannedData := None;
    }

    /** startScanning. */
    method StartScanning()
      requires Valid(State())
      modifies this
      ensures State() == Start(old(State())) && Valid(State())
      ensures isScanning && scannedData == old(scannedData)
    {
      isScanning := true;
    }

    /** stopScanning. */
    method StopScanning()
      requires Valid(State())
      modifies this
      ensures State() == Stop(old(State())) && Valid(State())
      ensures !isScanning && scannedData == old(scannedData)
    {
      isScanning := false;
    }

    /** handleScan, called with the text of a decoded QR code. */
    method HandleScan(data: Option<string>)
      requires Valid(State())
      modifies this
      ensures State() == Scan(old(State()), data) && Valid(State())
      ensures Truthy(data) ==> !isScanning && scannedData == Some(ParsePayment(data.value))
      ensures !Truthy(data) ==> isScanning == old(isScanning) && scannedData == old(scannedData)
    {
      if data.Some? && data.value != "" {
        var record := ParsePayment(data.value);
        scannedData := Some(record);
        isScanning := false;
      }
    }

    /** redirectToUPI, returning the deep link instead of navigating to it. */
    method RedirectToUpi() returns (url: Option<string>)
      ensures url == Redirect(State())
      ensures url.None? <==> scannedData.None?
      ensures url.Some? ==> url.value == PaymentUrl(scannedData.value)
    {
      if scannedData.Some? {
        var record := scannedData.value;
        url := Some(PaymentUrl(record));
      } else {
        url := None;
      }
    }
  }
}
