/** The employee screen that re-rents a vehicle to a known rider: input
    clean-up, the cash/online split of the amount due, accessories, the
    pre-ride photo cap, the checks run before the booking is saved, and the
    prefill from the rider's last rental. Money is whole rupees. */
module RetainRider {
  import opened Wrappers
  import opened Strings
  import opened Seqs
  import VehicleIds

  // ---------------------------------------------------------------------
  // Input helpers
  // ---------------------------------------------------------------------

  /** `sanitizeNumericInput`: the digits of the input, cut to `maxLength`. */
  function SanitizeNumericInput(value: string, maxLength: nat): (r: string)
    ensures |r| <= maxLength && forall i :: 0 <= i < |r| ==> IsDigit(r[i])
    ensures |r| <= |Digits(value)| && r == Digits(value)[..|r|]
    ensures |r| == maxLength || r == Digits(value)
  {
    var d := Digits(value);
    if |d| <= maxLength then d else d[..maxLength]
  }

  /** Sanitising a sanitised value changes nothing. */
  lemma SanitizeIdempotent(value: string, maxLength: nat)
    ensures SanitizeNumericInput(SanitizeNumericInput(value, maxLength), maxLength)
         == SanitizeNumericInput(value, maxLength)
  {
    DigitsOfDigits(SanitizeNumericInput(value, maxLength));
  }

  /** `clampSplitValue`: `Number(value)`, with a value that is not a number
      (`None`) read as 0 and a negative one raised to 0. */
  function ClampSplitValue(value: Option<int>): nat {
    match value
    case None => 0
    case Some(v) => if v < 0 then 0 else v
  }

  function Min(a: int, b: int): int { if a <= b then a else b }
  function Max(a: int, b: int): int { if a >= b then a else b }

  /** The amounts after one side of the split is edited: the edited side is
      clamped to the total, the other side takes the rest. Answers
      `(edited, other)`. */
  function EditSplit(total: int, value: Option<int>): (int, int) {
    var edited := Min(ClampSplitValue(value), total);
    (edited, Max(0, total - edited))
  }

  /** The two sides always add up to the total; for a non-negative total
      both lie in `[0, total]` and an in-range edit is kept as typed. */
  lemma EditSplitFacts(total: int, value: Option<int>)
    ensures EditSplit(total, value).0 + EditSplit(total, value).1 == total
    ensures total >= 0 ==> 0 <= EditSplit(total, value).0 <= total && 0 <= EditSplit(total, value).1 <= total
    ensures value.Some? && 0 <= value.value <= total ==> EditSplit(total, value).0 == value.value
    ensures value.None? ==> EditSplit(total, value) == (Min(0, total), Max(0, total - Min(0, total)))
  {
  }

  /** The amounts set by a payment-mode change, as `(cash, online)`; `None`
      for a mode that changes only the mode. `Math.round` rounds halves
      up, which for a whole total is `(total + 1) / 2`. */
  function ModeAmounts(mode: string, total: int): (r: Option<(int, int)>)
    ensures r.Some? <==> mode == "cash" || mode == "online" || mode == "split"
  {
    if mode == "cash" then Some((total, 0))
    else if mode == "online" then Some((0, total))
    else if mode == "split" then
      var nextCash := (total + 1) / 2;
      Some((nextCash, total - nextCash))
    else None
  }

  /** Every payment mode splits the whole total, and `split` puts the larger
      half (by at most one rupee) on cash. */
  lemma ModeAmountsFacts(mode: string, total: int)
    ensures ModeAmounts(mode, total).Some? ==> ModeAmounts(mode, total).value.0 + ModeAmounts(mode, total).value.1 == total
    ensures mode == "split" ==>
      var (cash, online) := ModeAmounts(mode, total).value;
      0 <= cash - online <= 1
  {
  }

  // ---------------------------------------------------------------------
  // Photos
  // ---------------------------------------------------------------------

  /** `5 * 1024 * 1024` bytes. */
  const MaxImageBytes: int := 5 * 1024 * 1024

  /** A picked file as the browser reports it; `NoFile` is a missing entry. */
  datatype PickedFile = NoFile | File(name: string, mimeType: string, size: int)

  /** A stored pre-ride photo; its data URL is not modelled. */
  datatype Photo = Photo(name: string, mimeType: string, size: int)

  /** `validateImageFile`: the message for a file that may not be uploaded,
      or `""`. */
  function ValidateImageFile(file: PickedFile): (r: string)
    ensures r == "" <==> file.File? && StartsWith(file.mimeType, "image/") && file.size <= MaxImageBytes
  {
    if file.NoFile? then "No file selected"
    else if !StartsWith(file.mimeType, "image/") then "Please select an image file"
    else if file.size > MaxImageBytes then "Image must be 5MB or smaller"
    else ""
  }

  /** The outcome of picking photos. */
  datatype PickResult = Ignored | Rejected(message: string) | Added(uploads: seq<Photo>)

  /** The files taken from a pick: as many as there are free slots. */
  function Picked(current: nat, files: seq<PickedFile>): (r: seq<PickedFile>)
    ensures |r| <= |files| && (current + |r| <= 8 || r == [])
  {
    var slots := Max(0, 8 - current);
    if |files| <= slots then files else files[..slots]
  }

  /** The first validation failure among `files`, or `""`. */
  function FirstInvalid(files: seq<PickedFile>): (r: string)
    ensures r == "" <==> forall i :: 0 <= i < |files| ==> ValidateImageFile(files[i]) == ""
  {
    if files == [] then ""
    else if ValidateImageFile(files[0]) != "" then ValidateImageFile(files[0])
    else FirstInvalid(files[1..])
  }

  /** The photo record of a valid file. */
  function AsPhoto(file: PickedFile): Photo
    requires file.File?
  {
    Photo(file.name, file.mimeType, file.size)
  }

  /** The photo records for valid files, in order. */
  function ToPhotos(files: seq<PickedFile>): (r: seq<Photo>)
    requires forall i :: 0 <= i < |files| ==> files[i].File?
    ensures |r| == |files|
    ensures forall i :: 0 <= i < |r| ==> r[i] == AsPhoto(files[i])
  {
    if files == [] then [] else ToPhotos(files[..|files| - 1]) + [AsPhoto(files[|files| - 1])]
  }

  /** `handlePreRidePhotosPick`: nothing for an empty pick, an error when all
      8 slots are used, otherwise the first free-slot's worth of files, all
      of them or none. */
  function PickPhotos(current: seq<Photo>, files: seq<PickedFile>): PickResult {
    if files == [] then Ignored
    else if Max(0, 8 - |current|) == 0 then Rejected("You can upload up to 8 pre-ride photos.")
    else
      var picked := Picked(|current|, files);
      if FirstInvalid(picked) != "" then Rejected(FirstInvalid(picked))
      else Added(ToPhotos(picked))
  }

  /** The photo cap: a pick never takes the list past 8, takes as many files
      as fit, and adds only images within the size limit. */
  lemma PhotoCap(current: seq<Photo>, files: seq<PickedFile>)
    ensures PickPhotos(current, files).Added? ==>
      var added := PickPhotos(current, files).uploads;
      |current| + |added| <= 8
      && |added| == Min(|files|, 8 - |current|)
      && forall i :: 0 <= i < |added| ==> StartsWith(added[i].mimeType, "image/") && added[i].size <= MaxImageBytes
    ensures files != [] && |current| >= 8 ==> PickPhotos(current, files) == Rejected("You can upload up to 8 pre-ride photos.")
    ensures files != [] && |current| < 8 && PickPhotos(current, files).Rejected? ==>
      exists i :: 0 <= i < Min(|files|, 8 - |current|) && ValidateImageFile(files[i]) != ""
  {
    if files != [] && |current| < 8 {
      var picked := Picked(|current|, files);
      if FirstInvalid(picked) != "" {
        var i :| 0 <= i < |picked| && ValidateImageFile(picked[i]) != "";
        assert picked[i] == files[i];
      } else {
        forall i | 0 <= i < |picked| ensures ValidateImageFile(picked[i]) == "" {
        }
      }
    }
  }

  // ---------------------------------------------------------------------
  // Checkout
  // ---------------------------------------------------------------------

  /** The form fields the screen keeps (`formData`). */
  datatype Form = Form(
    existingRiderId: string,
    name: string,
    phone: string,
    rentalStart: string,
    issuedByName: string,
    activeRentalId: string,
    totalAmount: int,
    cashAmount: int,
    onlineAmount: int,
    paymentMode: string,
    accessories: seq<string>,
    preRidePhotos: seq<Photo>,
    bikeModel: string,
    bikeId: string,
    batteryId: string,
    operationalZone: string)

  /** What the screen knows besides the form when checking out. */
  datatype Context = Context(
    activeRideStart: string,
    activeRideExpectedEnd: string,
    unavailableVehicleIds: seq<string>,
    unavailableBatteryIds: seq<string>,
    iciciEnabled: bool,
    merchantTranId: string,
    txnVerified: bool)

  /** The answer of the payment-status endpoint: its `status` field, or the
      message of a failed call. */
  datatype StatusReply = Status(raw: string) | CallFailed(message: string)

  /** The outcome of `handleComplete` before anything is saved. */
  datatype Decision = Refused(message: string) | NewBooking | UpdateActive

  /** The models that ride on a built-in battery. */
  const DefaultBatteryModels: set<string> :=
    {"paddle cycle", "electric scooter", "kids ev car", "kids paddle scooter", "double seat cycle"}

  /** `isDefaultBatteryModel`, reading the declared set. */
  predicate IsDefaultBatteryModel(bikeModel: string) {
    Lower(Trim(bikeModel)) in DefaultBatteryModels
  }

  /** The unavailable ids as compared: normalised, blanks dropped. */
  function UnavailableKeys(ids: seq<string>): set<string> {
    set i | 0 <= i < |ids| && VehicleIds.NormalizeForSearch(ids[i]) != "" :: VehicleIds.NormalizeForSearch(ids[i])
  }

  predicate IsUnavailable(id: string, ids: seq<string>) {
    id != "" && VehicleIds.NormalizeForSearch(id) in UnavailableKeys(ids)
  }

  /** A date-time field as a time, when set and parseable. */
  function TimeOf(value: string, parse: string -> Option<int>): Option<int> {
    if value == "" then None else parse(value)
  }

  /** The payment mode in force (`formData.paymentMode || "cash"`). */
  function EffectiveMode(f: Form): string {
    if f.paymentMode == "" then "cash" else f.paymentMode
  }

  /** The first five checks, in order. */
  function BasicsError(f: Form): Option<string> {
    if f.existingRiderId == "" then Some("Select a rider before completing payment.")
    else if Trim(f.name) == "" then Some("Rider name is missing. Re-select the rider.")
    else if |SanitizeNumericInput(f.phone, 10)| != 10 then Some("Valid 10-digit mobile number is required.")
    else if f.rentalStart == "" then Some("Rental start date & time is required.")
    else if Trim(f.issuedByName) == "" then Some("Issued by name is required.")
    else None
  }

  /** `creatingNewBooking`: no active rental, or a start at or after the
      active rental's expected end (both known). */
  predicate CreatesNewBooking(f: Form, c: Context, parse: string -> Option<int>) {
    var start := TimeOf(f.rentalStart, parse);
    var end := TimeOf(c.activeRideExpectedEnd, parse);
    f.activeRentalId == "" || (start.Some? && end.Some? && start.value >= end.value)
  }

  /** The check on a changed start when the active rental is updated. */
  function ActiveStartError(f: Form, c: Context, parse: string -> Option<int>): Option<string> {
    var start := TimeOf(f.rentalStart, parse);
    var activeStart := TimeOf(c.activeRideStart, parse);
    var end := TimeOf(c.activeRideExpectedEnd, parse);
    if f.activeRentalId == "" || CreatesNewBooking(f, c, parse) then None
    else if end.Some? && start.Some? then
      (if activeStart.Some? && start.value != activeStart.value && start.value < end.value
       then Some(MovedStartMessage(false)) else None)
    else if start.Some? && activeStart.Some? && start.value != activeStart.value then
      Some(MovedStartMessage(true))
    else None
  }

  /** The upper-cased, trimmed status. */
  function StatusText(raw: string): string { Upper(Trim(raw)) }

  /** The error for a status call that failed, with its message if it had one. */
  function CallFailedMessage(message: string): string {
    if message == "" then "Unable to verify payment. Please try again." else message
  }

  /** The error for a payment that has not succeeded yet. */
  function PendingMessage(next: string): string {
    "Payment not completed. Current status: " + (if next == "" then "PENDING" else next) + "."
  }

  /** The status endpoint is called: online payments are on, the mode is not
      cash, there is a reference, and the payment is not verified yet. */
  predicate StatusCallMade(f: Form, c: Context, verified: bool) {
    c.iciciEnabled && Lower(EffectiveMode(f)) != "cash" && c.merchantTranId != "" && !verified
  }

  /** The checks before the payment step all pass. */
  predicate PaymentStepReached(f: Form, c: Context, parse: string -> Option<int>) {
    BasicsError(f).None? && ActiveStartError(f, c, parse).None? && TotalsMatch(f)
  }

  /** Only the payment check reads the verified flag. */
  lemma ChecksIgnoreFlag(f: Form, c: Context, verified: bool, parse: string -> Option<int>)
    ensures CreatesNewBooking(f, c.(txnVerified := verified), parse) == CreatesNewBooking(f, c, parse)
    ensures ActiveStartError(f, c.(txnVerified := verified), parse) == ActiveStartError(f, c, parse)
    ensures NewBookingError(f, c.(txnVerified := verified)) == NewBookingError(f, c)
  {
  }

  /** The online-payment check: a reference is needed, and an unverified
      payment must report `SUCCESS`. */
  function PaymentStatusError(f: Form, c: Context, reply: StatusReply): Option<string> {
    if !c.iciciEnabled || Lower(EffectiveMode(f)) == "cash" then None
    else if c.merchantTranId == "" then
      Some("ICICI payment reference not found. Please re-generate the QR and complete payment.")
    else if c.txnVerified then None
    else match reply
      case CallFailed(message) => Some(CallFailedMessage(message))
      case Status(raw) =>
        var next := StatusText(raw);
        if next != "SUCCESS" then Some(PendingMessage(next)) else None
  }

  /** The checks that apply to a new booking only. */
  function NewBookingError(f: Form, c: Context): Option<string> {
    if |f.preRidePhotos| == 0 then Some("Upload at least one pre-ride vehicle photo.")
    else if IsUnavailable(f.bikeId, c.unavailableVehicleIds) then Some("Selected vehicle is unavailable.")
    else if !IsDefaultBatteryModel(f.bikeModel) && IsUnavailable(f.batteryId, c.unavailableBatteryIds) then
      Some("Selected battery is unavailable.")
    else None
  }

  /** The error for payment amounts that do not add up. */
  const TotalsMessage := "Cash + UPI payment totals must equal the total amount."

  /** The guard cascade of `handleComplete`: the first failing check wins,
      and a new booking runs its own checks last. */
  function Decide(basics: Option<string>, moved: Option<string>, totalsMatch: bool, payment: Option<string>,
                  creating: bool, booking: Option<string>): Decision
  {
    if basics.Some? then Refused(basics.value)
    else if moved.Some? then Refused(moved.value)
    else if !totalsMatch then Refused(TotalsMessage)
    else if payment.Some? then Refused(payment.value)
    else if creating && booking.Some? then Refused(booking.value)
    else if creating then NewBooking
    else UpdateActive
  }

  /** `handleComplete`'s verdict before anything is saved. */
  function Checkout(f: Form, c: Context, reply: StatusReply, parse: string -> Option<int>): Decision {
    Decide(BasicsError(f), ActiveStartError(f, c, parse), TotalsMatch(f), PaymentStatusError(f, c, reply),
           CreatesNewBooking(f, c, parse), NewBookingError(f, c))
  }

  /** Rider, name, a 10-digit phone, a start and an issuer are all given. */
  predicate BasicsHold(f: Form) {
    f.existingRiderId != "" && Trim(f.name) != "" && |Digits(f.phone)| >= 10
    && f.rentalStart != "" && Trim(f.issuedByName) != ""
  }

  /** An update keeps the active rental's start, or moves it only when one
      of the two starts is unknown. */
  predicate StartKept(f: Form, c: Context, parse: string -> Option<int>) {
    var start := TimeOf(f.rentalStart, parse);
    var activeStart := TimeOf(c.activeRideStart, parse);
    CreatesNewBooking(f, c, parse) || start.None? || activeStart.None? || start.value == activeStart.value
  }

  predicate TotalsMatch(f: Form) {
    f.cashAmount + f.onlineAmount == f.totalAmount
  }

  /** A non-cash payment under online payments has a reference, and has
      been confirmed before or reports `SUCCESS` now. */
  predicate PaymentSettled(f: Form, c: Context, reply: StatusReply) {
    c.iciciEnabled && Lower(EffectiveMode(f)) != "cash" ==>
      c.merchantTranId != "" && (c.txnVerified || (reply.Status? && StatusText(reply.raw) == "SUCCESS"))
  }

  /** A new booking has a photo, an available vehicle, and an available
      battery unless the model has a built-in one. */
  predicate BookingReady(f: Form, c: Context) {
    |f.preRidePhotos| > 0
    && !IsUnavailable(f.bikeId, c.unavailableVehicleIds)
    && (IsDefaultBatteryModel(f.bikeModel) || !IsUnavailable(f.batteryId, c.unavailableBatteryIds))
  }

  /** Everything a checkout needs, rule by rule. */
  predicate Acceptable(f: Form, c: Context, reply: StatusReply, parse: string -> Option<int>) {
    BasicsHold(f) && StartKept(f, c, parse) && TotalsMatch(f) && PaymentSettled(f, c, reply)
    && (CreatesNewBooking(f, c, parse) ==> BookingReady(f, c))
  }

  lemma DecideAccepts(basics: Option<string>, moved: Option<string>, totalsMatch: bool, payment: Option<string>,
                      creating: bool, booking: Option<string>)
    ensures !Decide(basics, moved, totalsMatch, payment, creating, booking).Refused? <==>
      basics.None? && moved.None? && totalsMatch && payment.None? && (creating ==> booking.None?)
    ensures Decide(basics, moved, totalsMatch, payment, creating, booking) == NewBooking <==>
      basics.None? && moved.None? && totalsMatch && payment.None? && creating && booking.None?
  {
  }

  /** A checkout goes ahead exactly when every rule holds. */
  lemma CheckoutAccepts(f: Form, c: Context, reply: StatusReply, parse: string -> Option<int>)
    ensures !Checkout(f, c, reply, parse).Refused? <==> Acceptable(f, c, reply, parse)
  {
    BasicsAccept(f);
    ActiveStartAccept(f, c, parse);
    PaymentAccept(f, c, reply);
    NewBookingAccept(f, c);
    DecideAccepts(BasicsError(f), ActiveStartError(f, c, parse), TotalsMatch(f), PaymentStatusError(f, c, reply),
                  CreatesNewBooking(f, c, parse), NewBookingError(f, c));
  }

  /** An accepted checkout is a new booking exactly when there is no active
      rental or the new start is at or after the active rental's end. */
  lemma CheckoutKind(f: Form, c: Context, reply: StatusReply, parse: string -> Option<int>)
    ensures Checkout(f, c, reply, parse) == NewBooking <==>
      Acceptable(f, c, reply, parse) && CreatesNewBooking(f, c, parse)
    ensures Checkout(f, c, reply, parse) == UpdateActive <==>
      Acceptable(f, c, reply, parse) && !CreatesNewBooking(f, c, parse)
  {
    CheckoutAccepts(f, c, reply, parse);
    DecideAccepts(BasicsError(f), ActiveStartError(f, c, parse), TotalsMatch(f), PaymentStatusError(f, c, reply),
                  CreatesNewBooking(f, c, parse), NewBookingError(f, c));
  }

  lemma BasicsAccept(f: Form)
    ensures BasicsError(f).None? <==> BasicsHold(f)
  {
    PhoneCheck(f.phone);
  }

  /** An update may move the start only when one of the two starts is unknown. */
  lemma ActiveStartAccept(f: Form, c: Context, parse: string -> Option<int>)
    ensures ActiveStartError(f, c, parse).None? <==> StartKept(f, c, parse)
  {
  }

  lemma PaymentAccept(f: Form, c: Context, reply: StatusReply)
    ensures PaymentStatusError(f, c, reply).None? <==> PaymentSettled(f, c, reply)
  {
  }

  lemma NewBookingAccept(f: Form, c: Context)
    ensures NewBookingError(f, c).None? <==> BookingReady(f, c)
  {
  }

  /** The phone check passes exactly when there are at least 10 digits. */
  lemma PhoneCheck(phone: string)
    ensures |SanitizeNumericInput(phone, 10)| == 10 <==> |Digits(phone)| >= 10
  {
  }

  /** The first five checks report the first one that fails, in the order
      rider, name, phone, start, issuer. */
  lemma BasicsOrder(f: Form, c: Context, reply: StatusReply, parse: string -> Option<int>)
    ensures f.existingRiderId == "" ==> Checkout(f, c, reply, parse) == Refused("Select a rider before completing payment.")
    ensures f.existingRiderId != "" && Trim(f.name) == "" ==>
      Checkout(f, c, reply, parse) == Refused("Rider name is missing. Re-select the rider.")
    ensures f.existingRiderId != "" && Trim(f.name) != "" && |Digits(f.phone)| < 10 ==>
      Checkout(f, c, reply, parse) == Refused("Valid 10-digit mobile number is required.")
    ensures f.existingRiderId != "" && Trim(f.name) != "" && |Digits(f.phone)| >= 10 && f.rentalStart == "" ==>
      Checkout(f, c, reply, parse) == Refused("Rental start date & time is required.")
    ensures (f.existingRiderId != "" && Trim(f.name) != "" && |Digits(f.phone)| >= 10 && f.rentalStart != ""
      && Trim(f.issuedByName) == "") ==>
      Checkout(f, c, reply, parse) == Refused("Issued by name is required.")
  {
    PhoneCheck(f.phone);
  }

  /** Updating the active rental with a changed start is refused when the
      start falls before the active end, or when the active end is unknown. */
  lemma MovedStartRefused(f: Form, c: Context, reply: StatusReply, parse: string -> Option<int>)
    requires BasicsError(f).None? && f.activeRentalId != ""
    requires TimeOf(f.rentalStart, parse).Some? && TimeOf(c.activeRideStart, parse).Some?
    requires TimeOf(f.rentalStart, parse) != TimeOf(c.activeRideStart, parse)
    requires TimeOf(c.activeRideExpectedEnd, parse).None?
          || TimeOf(f.rentalStart, parse).value < TimeOf(c.activeRideExpectedEnd, parse).value
    ensures Checkout(f, c, reply, parse) == Refused(MovedStartMessage(TimeOf(c.activeRideExpectedEnd, parse).None?))
  {
    MovedStartError(f, c, parse);
  }

  /** The message for a moved start: the active end is missing, or the start
      is before it. */
  function MovedStartMessage(endMissing: bool): string {
    if endMissing then "Active ride end time is missing. Choose a start time after the active ride ends."
    else "Retain ride start must be after the current active ride end time."
  }

  lemma MovedStartError(f: Form, c: Context, parse: string -> Option<int>)
    requires f.activeRentalId != ""
    requires TimeOf(f.rentalStart, parse).Some? && TimeOf(c.activeRideStart, parse).Some?
    requires TimeOf(f.rentalStart, parse) != TimeOf(c.activeRideStart, parse)
    requires TimeOf(c.activeRideExpectedEnd, parse).None?
          || TimeOf(f.rentalStart, parse).value < TimeOf(c.activeRideExpectedEnd, parse).value
    ensures ActiveStartError(f, c, parse) == Some(MovedStartMessage(TimeOf(c.activeRideExpectedEnd, parse).None?))
  {
  }

  // ---------------------------------------------------------------------
  // Prefill from the last rental
  // ---------------------------------------------------------------------

  /** The fields of the rider's most recent rental that prefill uses: its
      vehicle, its battery and the zone stored with it. */
  datatype LastRental = LastRental(bikeId: string, batteryId: string, zone: string)

  /** The fields `prefillFromLastRental` sets (`None`: left as is). */
  datatype Prefill = Prefill(zone: Option<string>, bikeId: Option<string>, batteryId: Option<string>)

  function PrefillFor(last: LastRental, preferZone: bool, unavailableVehicles: seq<string>, unavailableBatteries: seq<string>): Prefill {
    var vehicleId := Trim(last.bikeId);
    var batteryId := Trim(last.batteryId);
    Prefill(
      if preferZone && last.zone != "" then Some(Trim(last.zone)) else None,
      if vehicleId != "" && !IsUnavailable(vehicleId, unavailableVehicles) then Some(vehicleId) else None,
      if batteryId != "" && !IsUnavailable(batteryId, unavailableBatteries) then Some(batteryId) else None)
  }

  /** Prefill never proposes an unavailable vehicle or battery, and proposes
      the last ones whenever they are available. */
  lemma PrefillAvailable(last: LastRental, preferZone: bool, vehicles: seq<string>, batteries: seq<string>)
    ensures PrefillFor(last, preferZone, vehicles, batteries).bikeId.Some? <==>
      Trim(last.bikeId) != "" && !IsUnavailable(Trim(last.bikeId), vehicles)
    ensures PrefillFor(last, preferZone, vehicles, batteries).bikeId.Some? ==>
      PrefillFor(last, preferZone, vehicles, batteries).bikeId.value == Trim(last.bikeId)
    ensures PrefillFor(last, preferZone, vehicles, batteries).batteryId.Some? <==>
      Trim(last.batteryId) != "" && !IsUnavailable(Trim(last.batteryId), batteries)
    ensures forall i :: (0 <= i < |vehicles| && VehicleIds.NormalizeForSearch(vehicles[i]) == VehicleIds.NormalizeForSearch(Trim(last.bikeId))
      && VehicleIds.NormalizeForSearch(Trim(last.bikeId)) != "") ==>
      PrefillFor(last, preferZone, vehicles, batteries).bikeId.None?
  {
    forall i | 0 <= i < |vehicles| && VehicleIds.NormalizeForSearch(vehicles[i]) == VehicleIds.NormalizeForSearch(Trim(last.bikeId))
      && VehicleIds.NormalizeForSearch(Trim(last.bikeId)) != ""
      ensures PrefillFor(last, preferZone, vehicles, batteries).bikeId.None?
    {
      assert VehicleIds.NormalizeForSearch(Trim(last.bikeId)) in UnavailableKeys(vehicles);
    }
  }

  // ---------------------------------------------------------------------
  // The screen
  // ---------------------------------------------------------------------

  /** The screen's state: the form and the messages and flags around it. */
  class RetainScreen {
    var form: Form
    var paymentError: string
    var retainSuccess: bool
    var txnStatus: string
    var txnVerified: bool

    constructor(initial: Form)
      ensures form == initial && paymentError == "" && !retainSuccess && txnStatus == "" && !txnVerified
    {
      form := initial;
      paymentError := "";
      retainSuccess := false;
      txnStatus := "";
      txnVerified := false;
    }

    /** `handleCashChange`. */
    method HandleCashChange(value: Option<int>)
      modifies this
      ensures form == old(form).(cashAmount := EditSplit(old(form).totalAmount, value).0,
                                 onlineAmount := EditSplit(old(form).totalAmount, value).1)
      ensures form.cashAmount + form.onlineAmount == form.totalAmount
      ensures paymentError == old(paymentError) && txnStatus == old(txnStatus) && txnVerified == old(txnVerified)
      ensures retainSuccess == old(retainSuccess)
    {
      var total := form.totalAmount;
      var cash := Min(ClampSplitValue(value), total);
      form := form.(cashAmount := cash, onlineAmount := Max(0, total - cash));
      EditSplitFacts(total, value);
    }

    /** `handleOnlineChange`. */
    method HandleOnlineChange(value: Option<int>)
      modifies this
      ensures form == old(form).(onlineAmount := EditSplit(old(form).totalAmount, value).0,
                                 cashAmount := EditSplit(old(form).totalAmount, value).1)
      ensures form.cashAmount + form.onlineAmount == form.totalAmount
      ensures paymentError == old(paymentError) && txnStatus == old(txnStatus) && txnVerified == old(txnVerified)
      ensures retainSuccess == old(retainSuccess)
    {
      var total := form.totalAmount;
      var online := Min(ClampSplitValue(value), total);
      form := form.(onlineAmount := online, cashAmount := Max(0, total - online));
      EditSplitFacts(total, value);
    }

    /** `handlePaymentModeChange`. */
    method HandlePaymentModeChange(mode: string)
      modifies this
      ensures ModeAmounts(mode, old(form).totalAmount).None? ==> form == old(form).(paymentMode := mode)
      ensures ModeAmounts(mode, old(form).totalAmount).Some? ==>
        form == old(form).(paymentMode := mode,
                           cashAmount := ModeAmounts(mode, old(form).totalAmount).value.0,
                           onlineAmount := ModeAmounts(mode, old(form).totalAmount).value.1)
      ensures ModeAmounts(mode, old(form).totalAmount).Some? ==> form.cashAmount + form.onlineAmount == form.totalAmount
      ensures paymentError == old(paymentError) && txnStatus == old(txnStatus) && txnVerified == old(txnVerified)
      ensures retainSuccess == old(retainSuccess)
    {
      ModeAmountsFacts(mode, form.totalAmount);
      if mode == "cash" {
        form := form.(paymentMode := mode, cashAmount := form.totalAmount, onlineAmount := 0);
      } else if mode == "online" {
        form := form.(paymentMode := mode, cashAmount := 0, onlineAmount := form.totalAmount);
      } else if mode == "split" {
        var total := form.totalAmount;
        var nextCash := (total + 1) / 2;
        form := form.(paymentMode := mode, cashAmount := nextCash, onlineAmount := total - nextCash);
      } else {
        form := form.(paymentMode := mode);
      }
    }

    /** `toggleAccessory`. */
    method ToggleAccessory(key: string)
      modifies this
      ensures form == old(form).(accessories := Toggle(old(form).accessories, key))
      ensures key in form.accessories <==> key !in old(form).accessories
      ensures forall k :: k != key ==> (k in form.accessories <==> k in old(form).accessories)
      ensures paymentError == old(paymentError) && txnStatus == old(txnStatus) && txnVerified == old(txnVerified)
      ensures retainSuccess == old(retainSuccess)
    {
      var current := form.accessories;
      ToggleMembership(current, key);
      form := form.(accessories := Toggle(current, key));
    }

    /** `handlePreRidePhotosPick`: the picked files are validated one by one,
        and the first failure cancels the whole pick. */
    method PickPreRidePhotos(files: seq<PickedFile>)
      modifies this
      ensures PickPhotos(old(form).preRidePhotos, files) == Ignored ==>
        form == old(form) && paymentError == old(paymentError)
      ensures PickPhotos(old(form).preRidePhotos, files).Rejected? ==>
        form == old(form) && paymentError == PickPhotos(old(form).preRidePhotos, files).message
      ensures PickPhotos(old(form).preRidePhotos, files).Added? ==>
        form == old(form).(preRidePhotos := old(form).preRidePhotos + PickPhotos(old(form).preRidePhotos, files).uploads)
        && paymentError == old(paymentError)
      ensures |old(form).preRidePhotos| <= 8 ==> |form.preRidePhotos| <= 8
      ensures txnStatus == old(txnStatus) && txnVerified == old(txnVerified) && retainSuccess == old(retainSuccess)
    {
      PhotoCap(form.preRidePhotos, files);
      if |files| == 0 {
        return;
      }
      var current := form.preRidePhotos;
      var remainingSlots := Max(0, 8 - |current|);
      if remainingSlots == 0 {
        paymentError := "You can upload up to 8 pre-ride photos.";
        return;
      }
      var picked := if |files| <= remainingSlots then files else files[..remainingSlots];
      assert picked == Picked(|current|, files);
      var error, uploads := ValidateAll(picked);
      if error != "" {
        paymentError := error;
        return;
      }
      form := form.(preRidePhotos := current + uploads);
    }

    /** The validation pass of `handlePreRidePhotosPick`, file by file. */
    static method ValidateAll(picked: seq<PickedFile>) returns (error: string, uploads: seq<Photo>)
      ensures error == FirstInvalid(picked)
      ensures error == "" ==> uploads == ToPhotos(picked)
    {
      uploads := [];
      for i := 0 to |picked|
        invariant FirstInvalid(picked) == FirstInvalid(picked[i..])
        invariant forall k :: 0 <= k < i ==> picked[k].File?
        invariant uploads == ToPhotos(picked[..i])
      {
        var validation := ValidateImageFile(picked[i]);
        if validation != "" {
          return validation, uploads;
        }
        assert picked[i..][1..] == picked[i + 1..];
        assert picked[..i + 1][..i] == picked[..i];
        uploads := uploads + [AsPhoto(picked[i])];
      }
      assert picked[..|picked|] == picked;
      error := "";
    }

    /** `handleComplete` up to the save: the checks in order, each refusing
        with its message. The screen's own verified flag is the one read, in
        place of the context's. */
    method Complete(c: Context, reply: StatusReply, parse: string -> Option<int>) returns (decision: Decision)
      modifies this
      ensures decision == Checkout(old(form), c.(txnVerified := old(txnVerified)), reply, parse)
      ensures paymentError == (if decision.Refused? then decision.message else "")
      ensures form == old(form) && !retainSuccess
      // the status read is recorded only when the checks before it pass and the call is made
      ensures PaymentStepReached(old(form), c, parse) && StatusCallMade(old(form), c, old(txnVerified)) && reply.Status? ==>
        txnStatus == StatusText(reply.raw) && txnVerified == (old(txnVerified) || StatusText(reply.raw) == "SUCCESS")
      ensures !(PaymentStepReached(old(form), c, parse) && StatusCallMade(old(form), c, old(txnVerified)) && reply.Status?) ==>
        txnStatus == old(txnStatus) && txnVerified == old(txnVerified)
    {
      paymentError := "";
      retainSuccess := false;
      var f := form;
      ChecksIgnoreFlag(f, c, txnVerified, parse);
      var basics := CheckBasics(f);
      if basics.Some? {
        paymentError := basics.value;
        return Refused(paymentError);
      }
      var creating := CreatesNewBooking(f, c, parse);
      var moved := ActiveStartError(f, c, parse);
      if moved.Some? {
        paymentError := moved.value;
        return Refused(paymentError);
      }
      if f.cashAmount + f.onlineAmount != f.totalAmount {
        paymentError := TotalsMessage;
        return Refused(paymentError);
      }
      var status := VerifyPayment(f, c, reply);
      if status.Some? {
        paymentError := status.value;
        return Refused(paymentError);
      }
      if creating {
        var missing := NewBookingError(f, c);
        if missing.Some? {
          paymentError := missing.value;
          return Refused(paymentError);
        }
        return NewBooking;
      }
      return UpdateActive;
    }

    /** The first five checks of `handleComplete`, in order. */
    static method CheckBasics(f: Form) returns (error: Option<string>)
      ensures error == BasicsError(f)
    {
      if f.existingRiderId == "" {
        return Some("Select a rider before completing payment.");
      }
      if Trim(f.name) == "" {
        return Some("Rider name is missing. Re-select the rider.");
      }
      var phoneDigits := SanitizeNumericInput(f.phone, 10);
      if |phoneDigits| != 10 {
        return Some("Valid 10-digit mobile number is required.");
      }
      if f.rentalStart == "" {
        return Some("Rental start date & time is required.");
      }
      if Trim(f.issuedByName) == "" {
        return Some("Issued by name is required.");
      }
      return None;
    }

    /** The online-payment part of `handleComplete`, which reads the screen's
        verified flag and records the status it reads. */
    method VerifyPayment(f: Form, c: Context, reply: StatusReply) returns (error: Option<string>)
      modifies this
      ensures error == PaymentStatusError(f, c.(txnVerified := old(txnVerified)), reply)
      ensures StatusCallMade(f, c, old(txnVerified)) && reply.Status? ==>
        txnStatus == StatusText(reply.raw) && txnVerified == (old(txnVerified) || StatusText(reply.raw) == "SUCCESS")
      ensures !(StatusCallMade(f, c, old(txnVerified)) && reply.Status?) ==>
        txnStatus == old(txnStatus) && txnVerified == old(txnVerified)
      ensures form == old(form) && paymentError == old(paymentError) && retainSuccess == old(retainSuccess)
    {
      error := None;
      if c.iciciEnabled && Lower(EffectiveMode(f)) != "cash" {
        if c.merchantTranId == "" {
          return Some("ICICI payment reference not found. Please re-generate the QR and complete payment.");
        }
        if !txnVerified {
          match reply {
            case CallFailed(message) =>
              return Some(CallFailedMessage(message));
            case Status(raw) =>
              var next := StatusText(raw);
              txnStatus := next;
              if next != "SUCCESS" {
                return Some(PendingMessage(next));
              }
              txnVerified := true;
          }
        }
      }
    }

    /** `prefillFromLastRental`: a rider without rentals changes nothing. */
    method PrefillFromLastRental(last: Option<LastRental>, preferZone: bool, vehicles: seq<string>, batteries: seq<string>)
      modifies this
      ensures last.None? ==> form == old(form)
      ensures last.Some? ==>
        var p := PrefillFor(last.value, preferZone, vehicles, batteries);
        form == old(form).(operationalZone := p.zone.GetOr(old(form).operationalZone),
                           bikeId := p.bikeId.GetOr(old(form).bikeId),
                           batteryId := p.batteryId.GetOr(old(form).batteryId))
      ensures paymentError == old(paymentError) && txnStatus == old(txnStatus) && txnVerified == old(txnVerified)
      ensures retainSuccess == old(retainSuccess)
    {
      if last.None? {
        return;
      }
      var p := PrefillFor(last.value, preferZone, vehicles, batteries);
      form := form.(operationalZone := p.zone.GetOr(form.operationalZone),
                    bikeId := p.bikeId.GetOr(form.bikeId),
                    batteryId := p.batteryId.GetOr(form.batteryId));
    }
  }

  // ---------------------------------------------------------------------
  // Payment status polling
  // ---------------------------------------------------------------------

  /** The result of one status poll: whether polling stops, and the verified
      flag it sets, if any. */
  datatype PollOutcome = PollOutcome(stop: bool, verified: Option<bool>)

  const MaxAttempts: nat := 60

  /** One run of `poll` as written: `attempts` already counts this call. A
      failed call only records its error, so it never stops the polling. */
  function PollStep(attempts: nat, reply: StatusReply): PollOutcome {
    match reply
    case CallFailed(_) => PollOutcome(false, None)
    case Status(raw) =>
      var next := StatusText(raw);
      if next == "SUCCESS" then PollOutcome(true, Some(true))
      else if next == "FAILURE" || next == "FAILED" then PollOutcome(true, Some(false))
      else PollOutcome(attempts >= MaxAttempts, None)
  }

  /** As written, a status endpoint that keeps failing is polled for ever:
      no attempt count stops it. */
  lemma PollErrorsNeverStop(attempts: nat, message: string)
    ensures !PollStep(attempts, CallFailed(message)).stop
    ensures attempts >= MaxAttempts ==> PollStep(attempts, Status("PENDING")).stop
  {
  }

  /** The poll with the attempt limit applied to failed calls as well. */
  function PollStepBounded(attempts: nat, reply: StatusReply): PollOutcome {
    match reply
    case CallFailed(_) => PollOutcome(attempts >= MaxAttempts, None)
    case Status(_) => PollStep(attempts, reply)
  }

  /** With the limit applied to every call, polling stops by the 60th call
      whatever the replies, and a final status still stops it earlier. */
  lemma PollStopsByLimit(attempts: nat, reply: StatusReply)
    ensures attempts >= MaxAttempts ==> PollStepBounded(attempts, reply).stop
    ensures reply.Status? ==> PollStepBounded(attempts, reply) == PollStep(attempts, reply)
    ensures reply.Status? && StatusText(reply.raw) == "SUCCESS" ==> PollStepBounded(attempts, reply) == PollOutcome(true, Some(true))
  {
  }

  // ---------------------------------------------------------------------
  // Evaluation order of the screen's constants
  // ---------------------------------------------------------------------

  /** A `const` of the component body: its name and the names its
      initialiser reads while the body runs. */
  datatype Binding = Binding(name: string, uses: set<string>)

  /** The first name read before its own `const` has run (a read in the
      temporal dead zone, which throws a `ReferenceError`), if any. */
  function FirstDeadZoneRead(body: seq<Binding>): (r: Option<string>)
    ensures r.Some? ==> exists i, j :: 0 <= i < j < |body| && r.value in body[i].uses && body[j].name == r.value
  {
    DeadZoneFrom(body, 0)
  }

  function DeadZoneFrom(body: seq<Binding>, i: nat): (r: Option<string>)
    requires i <= |body|
    ensures r.Some? ==> exists k, j :: i <= k < j < |body| && r.value in body[k].uses && body[j].name == r.value
    decreases |body| - i
  {
    if i == |body| then None
    else
      var late := LaterName(body, i + 1, body[i].uses);
      if late.Some? then late else DeadZoneFrom(body, i + 1)
  }

  /** A name of `names` that a binding at or after `j` declares. */
  function LaterName(body: seq<Binding>, j: nat, names: set<string>): (r: Option<string>)
    requires j <= |body|
    ensures r.Some? ==> r.value in names && exists k :: j <= k < |body| && body[k].name == r.value
    ensures r.None? ==> forall k :: j <= k < |body| ==> body[k].name !in names
    decreases |body| - j
  {
    if j == |body| then None
    else if body[j].name in names then Some(body[j].name)
    else LaterName(body, j + 1, names)
  }

  /** The relevant constants of the component, in source order: the model
      normaliser, the default-battery flag reading the set, and the set. */
  const BodyAsWritten: seq<Binding> := [
    Binding("normalizeModel", {}),
    Binding("isDefaultBatteryModel", {"DEFAULT_BATTERY_MODELS", "normalizeModel", "formData"}),
    Binding("DEFAULT_BATTERY_MODELS", {})
  ]

  /** The same constants with the set declared before the flag. */
  const BodyCorrected: seq<Binding> := [
    Binding("DEFAULT_BATTERY_MODELS", {}),
    Binding("normalizeModel", {}),
    Binding("isDefaultBatteryModel", {"DEFAULT_BATTERY_MODELS", "normalizeModel", "formData"})
  ]

  /** As written, every render reads the default-battery set in its dead
      zone, so the screen throws before it can show anything. */
  lemma DefaultBatterySetReadTooEarly()
    ensures FirstDeadZoneRead(BodyAsWritten) == Some("DEFAULT_BATTERY_MODELS")
  {
    assert LaterName(BodyAsWritten, 1, {}) == None;
    assert BodyAsWritten[2].name in BodyAsWritten[1].uses;
    assert LaterName(BodyAsWritten, 2, BodyAsWritten[1].uses) == Some("DEFAULT_BATTERY_MODELS");
  }

  /** With the set declared first, nothing is read early. */
  lemma DefaultBatteryCorrected()
    ensures FirstDeadZoneRead(BodyCorrected) == None
  {
    assert LaterName(BodyCorrected, 1, {}) == None;
    assert LaterName(BodyCorrected, 2, {}) == None;
    assert LaterName(BodyCorrected, 3, BodyCorrected[2].uses) == None;
  }
}
