/** The date and file-name helpers of the patient's appointment page
    (frontend/src/pages/MyAppointments.jsx): `slotDateFormat`, the
    `filenameDate` and `safeDoc` derivations of the prescription download,
    and the download's file name. */
module DateFormat {
  import opened Wrappers
  import opened JsText
  import opened JsNumber

  const Months: seq<string> := ["Jan", "Feb", "Mar", "Apr", "May", "Jun",
                                "Jul", "Aug", "Sep", "Oct", "Nov", "Dec"]

  const One := Finite(false, 1, [])

  /** `parts[i]`, which is `undefined` past the end. */
  function Part(parts: seq<string>, i: nat): Option<string>
  {
    if i < |parts| then Some(parts[i]) else None
  }

  /** `x || ""` for a string that may be `undefined`. */
  function OrEmpty(x: Option<string>): string
  {
    if x.Some? then x.value else ""
  }

  /** `Number(x)` for a string that may be `undefined`. */
  function NumberOf(x: Option<string>): Num
  {
    if x.Some? then ToNumber(x.value) else NaN
  }

  /** The element of the month table that `months[n - 1]` reads, or `None`
      when that lookup is `undefined` (n - 1 is not an integer in 0..11). */
  function MonthIndex(n: Num): (k: Option<nat>)
    ensures k.Some? <==> n.Finite? && !n.negative && n.fraction == [] && 1 <= n.whole <= 12
    ensures k.Some? ==> k.value < 12 && k.value == n.whole - 1
  {
    if n.Finite? && !n.negative && n.fraction == [] && 1 <= n.whole <= 12 then Some(n.whole - 1) else None
  }

  /** `months[(monthNum || 1) - 1] || dateArray[1] || ""`, where `token`
      is `dateArray[1]` and `monthNum` is `Number(dateArray[1])`. */
  function MonthName(token: Option<string>, monthNum: Num): string
  {
    var k := MonthIndex(OrNum(monthNum, One));
    if k.Some? then Months[k.value]
    else if token.Some? && token.value != "" then token.value
    else ""
  }

  /** `slotDateFormat(slotDate)`: a string holding a space is taken as
      already formatted; otherwise "D_M_Y" becomes "D Mon Y". The result
      always holds a space. */
  function SlotDateFormat(slotDate: string): (r: string)
    ensures ' ' in r
  {
    if ' ' in slotDate then slotDate
    else
      var parts := Split(slotDate, '_');
      var day := OrEmpty(Part(parts, 0));
      var year := OrEmpty(Part(parts, 2));
      var monthNum := NumberOf(Part(parts, 1));
      var r := day + " " + MonthName(Part(parts, 1), monthNum) + " " + year;
      assert r[|day|] == ' ';
      r
  }

  /** A string avoiding the underscore holds none. */
  lemma UnderscoreAbsent(s: string)
    requires Avoids(s, {'_'})
    ensures '_' !in s
  {
  }

  /** No month name holds an underscore. */
  lemma MonthNameAvoidsUnderscore(token: Option<string>, monthNum: Num)
    requires token.Some? ==> '_' !in token.value
    ensures '_' !in MonthName(token, monthNum)
  {
    var k := MonthIndex(OrNum(monthNum, One));
    if k.Some? {
      assert Months[0] == "Jan" && Months[1] == "Feb" && Months[2] == "Mar" && Months[3] == "Apr";
      assert Months[4] == "May" && Months[5] == "Jun" && Months[6] == "Jul" && Months[7] == "Aug";
      assert Months[8] == "Sep" && Months[9] == "Oct" && Months[10] == "Nov" && Months[11] == "Dec";
    }
  }

  /** A stored key without spaces formats to a date without underscores;
      the page hands the download that formatted date, so its file-name
      date never takes the raw-key branch. */
  lemma FormattedKeyHasNoUnderscore(slotDate: string, displayDate: string, parsed: Option<CalendarDate>)
    requires ' ' !in slotDate
    ensures '_' !in SlotDateFormat(slotDate)
    ensures parsed.None? ==> FilenameDate(SlotDateFormat(slotDate), displayDate, parsed) == ReplaceSpaceRuns(displayDate, "_")
  {
    var parts := Split(slotDate, '_');
    forall k | 0 <= k < |parts| ensures '_' !in parts[k] {
      UnderscoreAbsent(parts[k]);
    }
    MonthNameAvoidsUnderscore(Part(parts, 1), NumberOf(Part(parts, 1)));
  }

  /** Formatting is idempotent: a formatted date holds a space and is
      passed through unchanged. */
  lemma SlotDateFormatIdempotent(slotDate: string)
    ensures SlotDateFormat(SlotDateFormat(slotDate)) == SlotDateFormat(slotDate)
    ensures ' ' in slotDate ==> SlotDateFormat(slotDate) == slotDate
  {
  }

  predicate NoSeparator(s: string) {
    '_' !in s && ' ' !in s
  }

  lemma AvoidsUnderscore(s: string)
    requires '_' !in s
    ensures Avoids(s, {'_'})
  {
    forall j | 0 <= j < |s| ensures s[j] !in {'_'} {
      assert s[j] in s;
    }
  }

  lemma JoinHasNoSpace(parts: seq<string>)
    requires forall k :: 0 <= k < |parts| ==> ' ' !in parts[k]
    ensures ' ' !in Join(parts, "_")
    decreases |parts|
  {
    if |parts| > 1 {
      JoinHasNoSpace(parts[1..]);
    }
  }

  lemma Join2(a: string, b: string)
    ensures Join([a, b], "_") == a + "_" + b
  {
    assert [a, b][1..] == [b];
  }

  lemma Join3(a: string, b: string, c: string)
    ensures Join([a, b, c], "_") == a + "_" + b + "_" + c
  {
    assert [a, b, c][1..] == [b, c];
    Join2(b, c);
  }

  /** Splitting pieces joined by "_" at "_" gives the pieces back. */
  lemma SplitUnderscores(parts: seq<string>)
    requires |parts| >= 1
    requires forall k :: 0 <= k < |parts| ==> '_' !in parts[k]
    ensures Split(Join(parts, "_"), '_') == parts
  {
    forall k | 0 <= k < |parts| ensures Avoids(parts[k], {'_'}) {
      AvoidsUnderscore(parts[k]);
    }
    SplitJoin(parts, '_', {'_'});
  }

  /** The raw key "p0_p1_..._pn" is split at the underscores: the day is
      the first piece, the month comes from the second, the year is the
      third or "" when there is none. */
  lemma SlotDateFormatRaw(parts: seq<string>)
    requires |parts| >= 1
    requires forall k :: 0 <= k < |parts| ==> NoSeparator(parts[k])
    ensures SlotDateFormat(Join(parts, "_"))
         == parts[0] + " " + MonthName(Part(parts, 1), NumberOf(Part(parts, 1))) + " " + OrEmpty(Part(parts, 2))
  {
    SplitUnderscores(parts);
    JoinHasNoSpace(parts);
  }

  /** A decimal month number between 1 and 12 names that month. */
  lemma MonthNameOfDigits(month: string, v: nat)
    requires month != [] && AllDigitsOf(month, 10)
    requires v == DigitsValue(month, 10) && 1 <= v <= 12
    ensures MonthName(Some(month), NumberOf(Some(month))) == Months[v - 1]
  {
    NumberOfDigits(month);
    MonthNameOfNumber(Some(month), NumberOf(Some(month)), v);
  }

  /** `Number(month)` of a decimal digit string is its value. */
  lemma NumberOfDigits(month: string)
    requires month != [] && AllDigitsOf(month, 10)
    ensures NumberOf(Some(month)) == Finite(false, DigitsValue(month, 10), [])
  {
    ToNumberOfDigits(month);
  }

  /** A month number between 1 and 12 names that month. */
  lemma MonthNameOfNumber(token: Option<string>, monthNum: Num, v: nat)
    requires monthNum == Finite(false, v, []) && 1 <= v <= 12
    ensures MonthName(token, monthNum) == Months[v - 1]
  {
    assert OrNum(monthNum, One) == monthNum;
  }

  /** "D_M_Y" with a decimal month M between 1 and 12 becomes
      "D " + the month's name + " Y". */
  lemma SlotDateFormatNumericMonth(day: string, month: string, year: string, v: nat)
    requires NoSeparator(day) && NoSeparator(month) && NoSeparator(year)
    requires month != [] && AllDigitsOf(month, 10)
    requires v == DigitsValue(month, 10) && 1 <= v <= 12
    ensures SlotDateFormat(day + "_" + month + "_" + year)
         == day + " " + Months[v - 1] + " " + year
  {
    var parts := [day, month, year];
    Join3(day, month, year);
    SlotDateFormatRaw(parts);
    assert Part(parts, 1) == Some(month);
    assert Part(parts, 2) == Some(year);
    MonthNameOfDigits(month, v);
  }

  /** "03" is a string of digits worth 3. */
  lemma DigitsOf03()
    ensures AllDigitsOf("03", 10) && DigitsValue("03", 10) == 3
  {
    assert IsDigitOf("03"[0], 10) && IsDigitOf("03"[1], 10);
    assert "03"[..1] == "0";
    assert "0"[..0] == "";
  }

  /** The worked example: "05_03_2026" is shown as "05 Mar 2026". */
  lemma SlotDateFormatExample()
    ensures SlotDateFormat("05_03_2026") == "05 Mar 2026"
  {
    assert SlotDateFormat("05" + "_" + "03" + "_" + "2026") == "05" + " " + "Mar" + " " + "2026" by {
      DigitsOf03();
      ExampleParts();
      SlotDateFormatNumericMonth("05", "03", "2026", 3);
      MarchIsThird();
    }
    ExampleKey();
    ExampleText();
  }

  /** The month table's third name; a separate step keeps the example proof small. */
  lemma MarchIsThird()
    ensures Months[2] == "Mar"
  {
  }

  /** The pieces of the worked example hold no separator. */
  lemma ExampleParts()
    ensures NoSeparator("05") && NoSeparator("03") && NoSeparator("2026")
  {
    assert "05" == ['0', '5'] && "03" == ['0', '3'] && "2026" == ['2', '0', '2', '6'];
  }

  /** The worked example's key, assembled from its pieces. */
  lemma ExampleKey()
    ensures "05" + "_" + "03" + "_" + "2026" == "05_03_2026"
  {
  }

  /** The worked example's formatted date, assembled from its pieces. */
  lemma ExampleText()
    ensures "05" + " " + "Mar" + " " + "2026" == "05 Mar 2026"
  {
  }

  /** The formatted date of a key without a month or a year. */
  lemma SpacedJan(day: string)
    ensures day + " " + "Jan" + " " + "" == day + " Jan "
  {
  }

  /** Month fallbacks: a missing, zero or non-numeric month reads as "Jan";
      any other number that is not 1..12 keeps the raw month text. */
  lemma MonthNameFallbacks(token: Option<string>)
    ensures !Truthy(NumberOf(token)) ==> MonthName(token, NumberOf(token)) == "Jan"
    ensures Truthy(NumberOf(token)) && MonthIndex(NumberOf(token)).None?
            ==> MonthName(token, NumberOf(token)) == token.value
  {
  }

  /** A raw key with fewer than three pieces has an empty year, and a key
      without an underscore reads the whole key as the day, with month "Jan". */
  lemma SlotDateFormatMissingParts(day: string, month: string)
    requires NoSeparator(day) && NoSeparator(month)
    ensures SlotDateFormat(day + "_" + month) == day + " " + MonthName(Some(month), NumberOf(Some(month))) + " "
    ensures SlotDateFormat(day) == day + " Jan "
  {
    Join2(day, month);
    SlotDateFormatRaw([day, month]);
    assert Part([day, month], 1) == Some(month);
    assert OrEmpty(Part([day, month], 2)) == "";
    assert Join([day], "_") == day;
    SlotDateFormatRaw([day]);
    assert Part([day], 1) == None;
    MonthNameFallbacks(None);
    assert MonthName(None, NaN) == "Jan";
    assert OrEmpty(Part([day], 2)) == "";
    SpacedJan(day);
  }

  /** A calendar date as `Date.prototype.getFullYear`, `getMonth() + 1` and
      `getDate()` report it. */
  datatype CalendarDate = CalendarDate(year: int, month: nat, day: nat)

  /** `s.padStart(2, "0")`. */
  function Pad2(s: string): string
  {
    PadStart(s, 2, '0')
  }

  /** The `filenameDate` of the download, given the date key and the
      `displayDate` formatted from it. A raw key "D_M_Y" becomes
      "YYYY-MM-DD" (or "DD-MM-" without a year); otherwise `parsed` is what
      `new Date(displayDate)` yields (`None` for an invalid date), and the
      invalid case falls back to the display date with each run of white
      space replaced by "_". */
  function FilenameDate(slotDate: string, displayDate: string, parsed: Option<CalendarDate>): string
  {
    if '_' in slotDate then RawKeyFilenameDate(Split(slotDate, '_'))
    else
      match parsed
      case Some(date) =>
        IntToString(date.year) + "-" + Pad2(NatToString(date.month)) + "-" + Pad2(NatToString(date.day))
      case None => ReplaceSpaceRuns(displayDate, "_")
  }

  /** The file-name date of a raw key already split at its underscores. */
  function RawKeyFilenameDate(parts: seq<string>): string
    requires |parts| >= 1
  {
    DashedDate(Pad2(parts[0]), MonthDigits(NumberOf(Part(parts, 1))), OrEmpty(Part(parts, 2)))
  }

  /** `String(monthNum || 1).padStart(2, "0")`. */
  function MonthDigits(monthNum: Num): string
  {
    Pad2(NumberToString(OrNum(monthNum, One)))
  }

  /** "YYYY-MM-DD" when there is a year, otherwise "DD-MM-". */
  function DashedDate(dd: string, mm: string, yyyy: string): string
  {
    if yyyy != "" then yyyy + "-" + mm + "-" + dd else dd + "-" + mm + "-" + yyyy
  }

  /** A raw key "D_M_Y" with a year and a decimal month gives "Y-MM-DD":
      the month is the number left-padded to two digits ("3" and "03" both
      give "03"), the day is left-padded to two characters. */
  lemma FilenameDateIso(day: string, month: string, year: string, displayDate: string, parsed: Option<CalendarDate>)
    requires '_' !in day && '_' !in month && '_' !in year && year != []
    requires month != [] && AllDigitsOf(month, 10) && DigitsValue(month, 10) > 0
    ensures FilenameDate(day + "_" + month + "_" + year, displayDate, parsed)
         == year + "-" + Pad2(NatToString(DigitsValue(month, 10))) + "-" + Pad2(day)
  {
    var parts := [day, month, year];
    RawKeyOfParts(parts, displayDate, parsed);
    Join3(day, month, year);
    RawKeyIso(day, month, year);
  }

  /** A date key joined from underscore-free parts, at least two of them,
      takes the raw-key branch with those parts. */
  lemma RawKeyOfParts(parts: seq<string>, displayDate: string, parsed: Option<CalendarDate>)
    requires |parts| >= 2
    requires forall k :: 0 <= k < |parts| ==> '_' !in parts[k]
    ensures FilenameDate(Join(parts, "_"), displayDate, parsed) == RawKeyFilenameDate(parts)
  {
    var s := Join(parts, "_");
    SplitUnderscores(parts);
    assert s == parts[0] + "_" + Join(parts[1..], "_");
    assert s[|parts[0]|] == '_';
  }

  /** The raw-key date of a day, a decimal month and a year. */
  lemma RawKeyIso(day: string, month: string, year: string)
    requires year != []
    requires month != [] && AllDigitsOf(month, 10) && DigitsValue(month, 10) > 0
    ensures RawKeyFilenameDate([day, month, year])
         == year + "-" + Pad2(NatToString(DigitsValue(month, 10))) + "-" + Pad2(day)
  {
    var parts := [day, month, year];
    var v := DigitsValue(month, 10);
    assert Part(parts, 1) == Some(month) && Part(parts, 2) == Some(year);
    assert NumberOf(Some(month)) == Finite(false, v, []) by {
      ToNumberOfDigits(month);
    }
    NumericMonth(v);
  }

  /** `String(n || 1).padStart(2, "0")` of a positive whole number n is n
      padded to two digits. */
  lemma NumericMonth(v: nat)
    requires v > 0
    ensures MonthDigits(Finite(false, v, [])) == Pad2(NatToString(v))
  {
    assert OrNum(Finite(false, v, []), One) == Finite(false, v, []);
    assert NumberToString(Finite(false, v, [])) == NatToString(v);
  }

  /** Without a usable month number the month is "01"; without a year the
      result is "DD-MM-". */
  lemma FilenameDateDefaults(day: string, month: string, displayDate: string, parsed: Option<CalendarDate>)
    requires '_' !in day && '_' !in month
    requires !Truthy(ToNumber(month))
    ensures FilenameDate(day + "_" + month, displayDate, parsed) == Pad2(day) + "-01-"
  {
    Join2(day, month);
    RawKeyOfParts([day, month], displayDate, parsed);
    RawKeyDefaults(day, month);
  }

  lemma RawKeyDefaults(day: string, month: string)
    requires !Truthy(ToNumber(month))
    ensures RawKeyFilenameDate([day, month]) == Pad2(day) + "-01-"
  {
    var parts := [day, month];
    assert Part(parts, 1) == Some(month) && Part(parts, 2) == None;
    DefaultMonth(NumberOf(Some(month)));
    DashedNoYear(Pad2(day));
  }

  /** The date without a year, with the default month. */
  lemma DashedNoYear(dd: string)
    ensures DashedDate(dd, "01", "") == dd + "-01-"
  {
  }

  /** `String(n || 1).padStart(2, "0")` of a falsy number is "01". */
  lemma DefaultMonth(n: Num)
    requires !Truthy(n)
    ensures MonthDigits(n) == "01"
  {
    assert OrNum(n, One) == One;
    assert NumberToString(One) == "1";
  }

  /** The file-name date of a non-empty display date is never empty; the
      formatter's output always holds a space, so the `|| "date"` fallback
      of the file name is never taken. */
  lemma FilenameDateNonEmpty(slotDate: string, displayDate: string, parsed: Option<CalendarDate>)
    requires displayDate != ""
    ensures FilenameDate(slotDate, displayDate, parsed) != ""
  {
    if '_' !in slotDate && parsed.None? {
      var d := displayDate;
      if IsSpace(d[0]) {
        assert ReplaceSpaceRuns(d, "_") == "_" + ReplaceSpaceRuns(SkipSpaces(d), "_");
      }
    }
  }

  predicate IsWordChar(c: char) {
    ('A' <= c <= 'Z') || ('a' <= c <= 'z') || ('0' <= c <= '9') || c == '_'
  }

  predicate IsFileNameChar(c: char) {
    IsWordChar(c) || c == '-'
  }

  predicate IsFileNameSafe(s: string) {
    forall i :: 0 <= i < |s| ==> IsFileNameChar(s[i])
  }

  /** `s.replace(/[^\w-]/g, "")`: keeps word characters and '-'. */
  function KeepFileNameChars(s: string): (r: string)
    ensures IsFileNameSafe(r)
  {
    if s == [] then []
    else if IsFileNameChar(s[0]) then [s[0]] + KeepFileNameChars(s[1..])
    else KeepFileNameChars(s[1..])
  }

  lemma {:induction false} KeepFileNameCharsNoOp(s: string)
    requires IsFileNameSafe(s)
    ensures KeepFileNameChars(s) == s
    decreases |s|
  {
    if s != [] {
      KeepFileNameCharsNoOp(s[1..]);
    }
  }

  /** `safeDoc`: the doctor's name (or "Doctor" when there is none), with
      runs of white space turned into "_" and every character other than a
      letter, digit, '_' or '-' dropped. */
  function SafeDoc(doctorName: string): (r: string)
    ensures IsFileNameSafe(r)
  {
    KeepFileNameChars(ReplaceSpaceRuns(if doctorName == "" then "Doctor" else doctorName, "_"))
  }

  /** A missing name gives "Doctor"; a name that is already safe is kept as
      it is, so deriving `safeDoc` twice changes nothing more. */
  lemma SafeDocIdempotent(doctorName: string)
    ensures SafeDoc("") == "Doctor"
    ensures doctorName != "" && IsFileNameSafe(doctorName) ==> SafeDoc(doctorName) == doctorName
    ensures SafeDoc(doctorName) != "" ==> SafeDoc(SafeDoc(doctorName)) == SafeDoc(doctorName)
  {
    SafeNameKept("Doctor");
    if doctorName != "" && IsFileNameSafe(doctorName) {
      SafeNameKept(doctorName);
    }
    var r := SafeDoc(doctorName);
    if r != "" {
      SafeNameKept(r);
    }
  }

  lemma SafeNameKept(name: string)
    requires name != "" && IsFileNameSafe(name)
    ensures SafeDoc(name) == name
  {
    forall i | 0 <= i < |name| ensures !IsSpace(name[i]) {
      assert IsFileNameChar(name[i]);
    }
    ReplaceSpaceRunsNoOp(name, "_");
    KeepFileNameCharsNoOp(name);
  }

  /** The downloaded file's name. */
  function Filename(doctorName: string, slotDate: string, parsed: Option<CalendarDate>): string
  {
    var fd := FilenameDate(slotDate, SlotDateFormat(slotDate), parsed);
    "Prescription_" + SafeDoc(doctorName) + "_" + (if fd != "" then fd else "date") + ".pdf"
  }

  /** The file name is "Prescription_" + safeDoc + "_" + filenameDate +
      ".pdf", and its doctor part holds only letters, digits, '_' and '-'. */
  lemma FilenameShape(doctorName: string, slotDate: string, parsed: Option<CalendarDate>)
    ensures Filename(doctorName, slotDate, parsed)
         == "Prescription_" + SafeDoc(doctorName) + "_" + FilenameDate(slotDate, SlotDateFormat(slotDate), parsed) + ".pdf"
    ensures IsFileNameSafe(SafeDoc(doctorName))
  {
    FilenameDateNonEmpty(slotDate, SlotDateFormat(slotDate), parsed);
  }
}
