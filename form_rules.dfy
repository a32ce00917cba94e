/** The `Option` wrapper used for "no error" and for "no request sent". */
module Wrappers {
  datatype Option<+T> = None | Some(value: T)
}

/**
 * The pure part of the fuel-entry form: the record of field values, the
 * two regular-expression checks, the per-field rules and the error map that
 * `validate` builds from them.
 */
module FormRules {
  import opened Wrappers
  import opened JsRegex

  /**
   * One value per form field. `Fields<string>` is the form's `FormData`, all
   * values held as raw text; `Fields<Option<string>>` is its error object
   * `Partial<FormData>`, where `None` is a property that is absent or
   * `undefined`.
   */
  datatype Fields<T> = Fields(
    dateOfBill: T,
    receiptNumber: T,
    driverName: T,
    vehicleNumber: T,
    vehicleType: T,
    fuelType: T,
    quantity: T,
    fuelRate: T,
    totalAmount: T,
    supervisorName: T,
    supervisorContact: T)

  type FormData = Fields<string>

  type Errors = Fields<Option<string>>

  /** The error object `{}`. */
  const NoErrors: Errors := Fields(None, None, None, None, None, None, None, None, None, None, None)

  /** The names of the fields, as used for `[name]: value` updates and as error keys. */
  datatype Field =
    | DateOfBill | ReceiptNumber | DriverName | VehicleNumber | VehicleType | FuelType
    | Quantity | FuelRate | TotalAmount | SupervisorName | SupervisorContact

  /** The value of a JavaScript `number`, as `parseFloat` may return it. */
  datatype JsNumber = NaN | Finite(value: real) | PositiveInfinity | NegativeInfinity

  /** JavaScript's `n <= 0`: every comparison with NaN is false. */
  predicate AtMostZero(n: JsNumber)
  {
    match n
    case NaN => false
    case Finite(x) => x <= 0.0
    case PositiveInfinity => false
    case NegativeInfinity => true
  }

  /** `INITIAL_DATA`: the date of the day the module was loaded, all else empty. */
  function InitialData(today: string): (r: FormData)
  {
    Fields(today, "", "", "", "", "", "", "", "", "", "")
  }

  function Get<T>(d: Fields<T>, f: Field): (v: T)
  {
    match f
    case DateOfBill => d.dateOfBill
    case ReceiptNumber => d.receiptNumber
    case DriverName => d.driverName
    case VehicleNumber => d.vehicleNumber
    case VehicleType => d.vehicleType
    case FuelType => d.fuelType
    case Quantity => d.quantity
    case FuelRate => d.fuelRate
    case TotalAmount => d.totalAmount
    case SupervisorName => d.supervisorName
    case SupervisorContact => d.supervisorContact
  }

  /** `{ ...d, [f]: v }`: the named field takes the value verbatim, every other field keeps its own. */
  function SetField<T>(d: Fields<T>, f: Field, v: T): (r: Fields<T>)
    ensures Get(r, f) == v
    ensures forall g :: g != f ==> Get(r, g) == Get(d, g)
  {
    match f
    case DateOfBill => d.(dateOfBill := v)
    case ReceiptNumber => d.(receiptNumber := v)
    case DriverName => d.(driverName := v)
    case VehicleNumber => d.(vehicleNumber := v)
    case VehicleType => d.(vehicleType := v)
    case FuelType => d.(fuelType := v)
    case Quantity => d.(quantity := v)
    case FuelRate => d.(fuelRate := v)
    case TotalAmount => d.(totalAmount := v)
    case SupervisorName => d.(supervisorName := v)
    case SupervisorContact => d.(supervisorContact := v)
  }

  /** Writing a field's own value back leaves the record as it was. */
  lemma SetFieldOwnValue<T>(d: Fields<T>, f: Field)
    ensures SetField(d, f, Get(d, f)) == d
  {
  }

  /** The last write to a field wins. */
  lemma SetFieldTwice<T>(d: Fields<T>, f: Field, v: T, w: T)
    ensures SetField(SetField(d, f, v), f, w) == SetField(d, f, w)
  {
  }

  // ---------------------------------------------------------------------
  // The two regular expressions

  /** `/^[A-Z]{2}[0-9]{1,2}[A-Z]{1,2}[0-9]{4}$/i` */
  const VehicleRegex: Pattern :=
    Pattern([Piece([CharRange('A', 'Z')], 2, 2),
             Piece([CharRange('0', '9')], 1, 2),
             Piece([CharRange('A', 'Z')], 1, 2),
             Piece([CharRange('0', '9')], 4, 4)], true)

  /** `/^[6-9]\d{9}$/` */
  const PhoneRegex: Pattern :=
    Pattern([Piece([CharRange('6', '9')], 1, 1),
             Piece([CharRange('0', '9')], 9, 9)], false)

  predicate IsValidVehicleNumber(s: string)
  {
    Test(VehicleRegex, s)
  }

  predicate IsValidMobile(s: string)
  {
    Test(PhoneRegex, s)
  }

  predicate IsLetter(c: char)
  {
    'A' <= c <= 'Z' || 'a' <= c <= 'z'
  }

  predicate IsDigit(c: char)
  {
    '0' <= c <= '9'
  }

  /** Every character at positions `i` up to (not including) `j` is an ASCII letter of either case. */
  predicate LettersIn(s: string, i: nat, j: nat)
    requires i <= j <= |s|
  {
    forall m :: i <= m < j ==> IsLetter(s[m])
  }

  /** Every character at positions `i` up to (not including) `j` is an ASCII digit. */
  predicate DigitsIn(s: string, i: nat, j: nat)
    requires i <= j <= |s|
  {
    forall m :: i <= m < j ==> IsDigit(s[m])
  }

  /** Two letters, `d` digits, `l` letters and four digits, and nothing else. */
  predicate VehicleShapeWith(s: string, d: nat, l: nat)
  {
    && |s| == 6 + d + l
    && LettersIn(s, 0, 2)
    && DigitsIn(s, 2, 2 + d)
    && LettersIn(s, 2 + d, 2 + d + l)
    && DigitsIn(s, 2 + d + l, |s|)
  }

  /** An Indian registration number: two letters, one or two digits, one or two letters, four digits. */
  predicate VehicleShape(s: string)
  {
    exists d: nat, l: nat :: 1 <= d <= 2 && 1 <= l <= 2 && VehicleShapeWith(s, d, l)
  }

  /** An Indian mobile number: ten digits, the first of them 6, 7, 8 or 9. */
  predicate MobileShape(s: string)
  {
    |s| == 10 && '6' <= s[0] <= '9' && DigitsIn(s, 0, 10)
  }

  lemma SingleRange(r: CharRange, c: char)
    ensures InRanges([r], c) <==> r.lo <= c <= r.hi
  {
    if r.lo <= c <= r.hi {
      assert [r][0] == r;
    }
  }

  /** Under the `i` flag the class `[A-Z]` holds the letters of both cases. */
  lemma LetterClass(p: Piece, c: char)
    requires p.ranges == [CharRange('A', 'Z')]
    ensures ClassHas(p, true, c) <==> IsLetter(c)
  {
    SingleRange(CharRange('A', 'Z'), c);
    SingleRange(CharRange('A', 'Z'), Upper(c));
    SingleRange(CharRange('A', 'Z'), Lower(c));
  }

  /** The class `[0-9]` holds the digits, with or without the `i` flag. */
  lemma DigitClass(p: Piece, ignoreCase: bool, c: char)
    requires p.ranges == [CharRange('0', '9')]
    ensures ClassHas(p, ignoreCase, c) <==> IsDigit(c)
  {
    SingleRange(CharRange('0', '9'), c);
    SingleRange(CharRange('0', '9'), Upper(c));
    SingleRange(CharRange('0', '9'), Lower(c));
  }

  lemma LetterRun(p: Piece, s: string, i: nat, j: nat)
    requires p.ranges == [CharRange('A', 'Z')] && i <= j <= |s|
    ensures ClassRun(p, true, s, i, j) <==> LettersIn(s, i, j)
  {
    forall m | i <= m < j {
      LetterClass(p, s[m]);
    }
  }

  lemma DigitRun(p: Piece, ignoreCase: bool, s: string, i: nat, j: nat)
    requires p.ranges == [CharRange('0', '9')] && i <= j <= |s|
    ensures ClassRun(p, ignoreCase, s, i, j) <==> DigitsIn(s, i, j)
  {
    forall m | i <= m < j {
      DigitClass(p, ignoreCase, s[m]);
    }
  }

  /** A match of the vehicle-number pattern has the registration-number shape. */
  lemma VehicleDenotesShape(s: string)
    requires DenotesFrom(VehicleRegex.pieces, true, s, 0)
    ensures VehicleShape(s)
  {
    var ps := VehicleRegex.pieces;
    var ends := SplitOf(ps, true, s, 0);
    assert BlockStart(0, ends, 0) == 0 && ClassRun(ps[0], true, s, 0, ends[0]);
    assert BlockStart(0, ends, 1) == ends[0] && ClassRun(ps[1], true, s, ends[0], ends[1]);
    assert BlockStart(0, ends, 2) == ends[1] && ClassRun(ps[2], true, s, ends[1], ends[2]);
    assert BlockStart(0, ends, 3) == ends[2] && ClassRun(ps[3], true, s, ends[2], ends[3]);
    LetterRun(ps[0], s, 0, ends[0]);
    DigitRun(ps[1], true, s, ends[0], ends[1]);
    LetterRun(ps[2], s, ends[1], ends[2]);
    DigitRun(ps[3], true, s, ends[2], ends[3]);
    assert VehicleShapeWith(s, ends[1] - 2, ends[2] - ends[1]);
  }

  /** Every registration number of the shape matches the vehicle-number pattern. */
  lemma VehicleShapeDenotes(s: string, d: nat, l: nat)
    requires 1 <= d <= 2 && 1 <= l <= 2 && VehicleShapeWith(s, d, l)
    ensures DenotesFrom(VehicleRegex.pieces, true, s, 0)
  {
    var ps := VehicleRegex.pieces;
    var ends: seq<nat> := [2, 2 + d, 2 + d + l, |s|];
    LetterRun(ps[0], s, 0, 2);
    DigitRun(ps[1], true, s, 2, 2 + d);
    LetterRun(ps[2], s, 2 + d, 2 + d + l);
    DigitRun(ps[3], true, s, 2 + d + l, |s|);
    assert BlockStart(0, ends, 1) == 2 && BlockStart(0, ends, 2) == 2 + d && BlockStart(0, ends, 3) == 2 + d + l;
    SplitDenotes(ps, true, s, 0, ends);
  }

  /** The vehicle-number regex accepts exactly the registration-number shape, letters in either case. */
  lemma VehicleNumberIff(s: string)
    ensures IsValidVehicleNumber(s) <==> VehicleShape(s)
  {
    TestIff(VehicleRegex, s);
    if DenotesFrom(VehicleRegex.pieces, true, s, 0) {
      VehicleDenotesShape(s);
    }
    if VehicleShape(s) {
      var d: nat, l: nat :| 1 <= d <= 2 && 1 <= l <= 2 && VehicleShapeWith(s, d, l);
      VehicleShapeDenotes(s, d, l);
    }
  }

  /** Whatever the vehicle-number regex accepts is 8 to 10 characters long. */
  lemma VehicleNumberLength(s: string)
    requires IsValidVehicleNumber(s)
    ensures 8 <= |s| <= 10
  {
    VehicleNumberIff(s);
  }

  /** The mobile regex accepts exactly ten digits that start with 6, 7, 8 or 9. */
  lemma MobileIff(s: string)
    ensures IsValidMobile(s) <==> MobileShape(s)
  {
    TestIff(PhoneRegex, s);
    var ps := PhoneRegex.pieces;
    if DenotesFrom(ps, false, s, 0) {
      var ends := SplitOf(ps, false, s, 0);
      assert BlockStart(0, ends, 0) == 0 && ClassRun(ps[0], false, s, 0, 1);
      assert BlockStart(0, ends, 1) == 1 && ClassRun(ps[1], false, s, 1, 10);
      assert ClassHas(ps[0], false, s[0]);
      SingleRange(CharRange('6', '9'), s[0]);
      DigitRun(ps[1], false, s, 1, 10);
    }
    if MobileShape(s) {
      var ends: seq<nat> := [1, 10];
      SingleRange(CharRange('6', '9'), s[0]);
      assert ClassRun(ps[0], false, s, 0, 1);
      DigitRun(ps[1], false, s, 1, 10);
      assert BlockStart(0, ends, 1) == 1;
      SplitDenotes(ps, false, s, 0, ends);
    }
  }

  /** A sample registration number in lower case is accepted. */
  lemma SampleVehicleAccepted()
    ensures IsValidVehicleNumber("mp04ab1234")
  {
    VehicleNumberIff("mp04ab1234");
    assert VehicleShapeWith("mp04ab1234", 2, 2);
  }

  /** A registration number with a three-digit serial is rejected. */
  lemma SampleVehicleRejected()
    ensures !IsValidVehicleNumber("MP4AB123")
  {
    VehicleNumberIff("MP4AB123");
    assert !IsDigit("MP4AB123"[4]);
  }

  /** A mobile number starting with 9 is accepted; one starting with 1 or one digit short is not. */
  lemma SampleMobiles()
    ensures IsValidMobile("9876543210")
    ensures !IsValidMobile("1234567890")
    ensures !IsValidMobile("987654321")
  {
    MobileIff("9876543210");
    MobileIff("1234567890");
    MobileIff("987654321");
  }

  // ---------------------------------------------------------------------
  // Per-field rules and the error map

  const DateRequired := "Date is required"
  const ReceiptRequired := "Receipt number is required"
  const DriverRequired := "Driver name is required"
  const VehicleRequired := "Vehicle number is required"
  const VehicleFormat := "Invalid format (e.g. MP04AB1234)"
  const VehicleTypeRequired := "Vehicle type is required"
  const FuelTypeRequired := "Fuel type is required"
  const QuantityInvalid := "Valid quantity required"
  const RateInvalid := "Valid rate required"
  const SupervisorRequired := "Supervisor name is required"
  const ContactRequired := "Contact number is required"
  const ContactInvalid := "Invalid mobile number"

  /** JavaScript truthiness of a string: only the empty string is falsy. */
  function Required(v: string, message: string): (e: Option<string>)
  {
    if v == "" then Some(message) else None
  }

  /**
   * The message `validate` records for field `f` holding value `v`, if any.
   * Each rule reads its own field only.
   */
  function RuleFor(f: Field, v: string, parse: string -> JsNumber): (e: Option<string>)
    ensures e.Some? ==> e.value != ""
  {
    match f
    case DateOfBill => Required(v, DateRequired)
    case ReceiptNumber => Required(v, ReceiptRequired)
    case DriverName => Required(v, DriverRequired)
    case VehicleNumber =>
      if v == "" then Some(VehicleRequired)
      else if !IsValidVehicleNumber(v) then Some(VehicleFormat)
      else None
    case VehicleType => Required(v, VehicleTypeRequired)
    case FuelType => Required(v, FuelTypeRequired)
    case Quantity => if v == "" || AtMostZero(parse(v)) then Some(QuantityInvalid) else None
    case FuelRate => if v == "" || AtMostZero(parse(v)) then Some(RateInvalid) else None
    case TotalAmount => None
    case SupervisorName => Required(v, SupervisorRequired)
    case SupervisorContact =>
      if v == "" then Some(ContactRequired)
      else if !IsValidMobile(v) then Some(ContactInvalid)
      else None
  }


  /** The `newErrors` object that `validate` builds: each field carries its own rule's verdict. */
  function ErrorsFor(d: FormData, parse: string -> JsNumber): (e: Errors)
    ensures forall f :: Get(e, f) == RuleFor(f, Get(d, f), parse)
  {
    Fields(
      RuleFor(DateOfBill, d.dateOfBill, parse),
      RuleFor(ReceiptNumber, d.receiptNumber, parse),
      RuleFor(DriverName, d.driverName, parse),
      RuleFor(VehicleNumber, d.vehicleNumber, parse),
      RuleFor(VehicleType, d.vehicleType, parse),
      RuleFor(FuelType, d.fuelType, parse),
      RuleFor(Quantity, d.quantity, parse),
      RuleFor(FuelRate, d.fuelRate, parse),
      RuleFor(TotalAmount, d.totalAmount, parse),
      RuleFor(SupervisorName, d.supervisorName, parse),
      RuleFor(SupervisorContact, d.supervisorContact, parse))
  }

  /** `Object.keys(e).length === 0`: no field carries a message. */
  lemma NoErrorsIff(e: Errors)
    ensures e == NoErrors <==> forall f :: Get(e, f) == None
  {
    if forall f :: Get(e, f) == None {
      assert Get(e, DateOfBill) == None && Get(e, ReceiptNumber) == None && Get(e, DriverName) == None;
      assert Get(e, VehicleNumber) == None && Get(e, VehicleType) == None && Get(e, FuelType) == None;
      assert Get(e, Quantity) == None && Get(e, FuelRate) == None && Get(e, TotalAmount) == None;
      assert Get(e, SupervisorName) == None && Get(e, SupervisorContact) == None;
    }
  }

  /**
   * The date, receipt number, driver name, vehicle type, fuel type and
   * supervisor name are flagged exactly when empty, with their "required" message.
   */
  lemma RequiredFieldRule(d: FormData, parse: string -> JsNumber, f: Field)
    requires f in {DateOfBill, ReceiptNumber, DriverName, VehicleType, FuelType, SupervisorName}
    ensures Get(ErrorsFor(d, parse), f).Some? <==> Get(d, f) == ""
    ensures Get(ErrorsFor(d, parse), f) == if Get(d, f) == "" then RuleFor(f, "", parse) else None
  {
  }

  /**
   * The vehicle number is flagged exactly when it does not have the
   * registration shape; an empty one gets only the "required" message, a
   * non-empty one only the format message.
   */
  lemma VehicleNumberRule(d: FormData, parse: string -> JsNumber)
    ensures ErrorsFor(d, parse).vehicleNumber.Some? <==> !VehicleShape(d.vehicleNumber)
    ensures d.vehicleNumber == "" ==> ErrorsFor(d, parse).vehicleNumber == Some(VehicleRequired)
    ensures d.vehicleNumber != "" && !VehicleShape(d.vehicleNumber) ==>
              ErrorsFor(d, parse).vehicleNumber == Some(VehicleFormat)
  {
    VehicleNumberIff(d.vehicleNumber);
    if VehicleShape(d.vehicleNumber) {
      VehicleNumberLength(d.vehicleNumber);
    }
  }

  /**
   * The supervisor contact is flagged exactly when it is not a mobile number;
   * an empty one gets only the "required" message.
   */
  lemma ContactRule(d: FormData, parse: string -> JsNumber)
    ensures ErrorsFor(d, parse).supervisorContact.Some? <==> !MobileShape(d.supervisorContact)
    ensures d.supervisorContact == "" ==> ErrorsFor(d, parse).supervisorContact == Some(ContactRequired)
    ensures d.supervisorContact != "" && !MobileShape(d.supervisorContact) ==>
              ErrorsFor(d, parse).supervisorContact == Some(ContactInvalid)
  {
    MobileIff(d.supervisorContact);
  }

  /**
   * Quantity and rate are flagged exactly when empty or parsed to a number
   * at most zero; a non-empty value that parses to NaN passes.
   */
  lemma AmountRule(d: FormData, parse: string -> JsNumber, f: Field)
    requires f == Quantity || f == FuelRate
    ensures Get(ErrorsFor(d, parse), f).Some? <==> Get(d, f) == "" || AtMostZero(parse(Get(d, f)))
    ensures Get(d, f) != "" && parse(Get(d, f)) == NaN ==> Get(ErrorsFor(d, parse), f) == None
  {
  }

  /** The derived total amount is never flagged. */
  lemma TotalAmountNeverFlagged(d: FormData, parse: string -> JsNumber)
    ensures ErrorsFor(d, parse).totalAmount == None
  {
  }

  /** Changing one field can change only that field's verdict. */
  lemma ChangeKeepsOtherVerdicts(d: FormData, f: Field, v: string, parse: string -> JsNumber)
    ensures forall g :: g != f ==>
      Get(ErrorsFor(SetField(d, f, v), parse), g) == Get(ErrorsFor(d, parse), g)
    ensures Get(ErrorsFor(SetField(d, f, v), parse), f) == RuleFor(f, v, parse)
  {
  }

  /** Validation passes exactly when every field satisfies its rule. */
  lemma ErrorsForEmptyIff(d: FormData, parse: string -> JsNumber)
    ensures ErrorsFor(d, parse) == NoErrors <==>
      && d.dateOfBill != "" && d.receiptNumber != "" && d.driverName != ""
      && VehicleShape(d.vehicleNumber)
      && d.vehicleType != "" && d.fuelType != ""
      && d.quantity != "" && !AtMostZero(parse(d.quantity))
      && d.fuelRate != "" && !AtMostZero(parse(d.fuelRate))
      && d.supervisorName != ""
      && MobileShape(d.supervisorContact)
  {
    VehicleNumberRule(d, parse);
    ContactRule(d, parse);
  }

  /** A form just reset to `INITIAL_DATA` fails validation on every checked field but the date. */
  lemma InitialDataRejected(today: string, parse: string -> JsNumber)
    ensures var e := ErrorsFor(InitialData(today), parse);
      && (e.dateOfBill.Some? <==> today == "")
      && e.receiptNumber.Some? && e.driverName.Some? && e.vehicleNumber == Some(VehicleRequired)
      && e.vehicleType.Some? && e.fuelType.Some? && e.quantity.Some? && e.fuelRate.Some?
      && e.supervisorName.Some? && e.supervisorContact == Some(ContactRequired)
  {
  }

}
