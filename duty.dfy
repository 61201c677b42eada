/**
 * The scheduled duty message: which of the three investigation teams is on
 * duty on a given calendar day, the Thai-style rendering of a date, and the
 * fixed-layout report that is broadcast once a day.
 */
module ScheduledDuty {
  import opened CivilCalendar
  import opened TextUtil

  /** One officer of a duty team's roster. */
  datatype Officer = Officer(rank: string, name: string, title: string, code: string, phone: string)

  const ThaiMonths: seq<string> := [
    "มกราคม",
    "กุมภาพันธ์",
    "มีนาคม",
    "เมษายน",
    "พฤษภาคม",
    "มิถุนายน",
    "กรกฎาคม",
    "สิงหาคม",
    "กันยายน",
    "ตุลาคม",
    "พฤศจิกายน",
    "ธันวาคม"
  ]

  /** Years of the Buddhist era run 543 ahead of the civil year. */
  const BuddhistEraOffset := 543

  /** The first day of the rotation, 1 August 2025 (month 7 counted from 0). */
  const ReferenceDate := Date(2025, 7, 1)

  /** The team on duty on the reference date, the day after, and the day after that. */
  const Rotation: seq<int> := [3, 1, 2]

  const Team1Officers: seq<Officer> := [
    Officer("ร.ต.อ.", "สายัณห์ มาปะโท", "รอง สว.สส.ฯ", "ปค.412", "062-3271588"),
    Officer("ร.ต.ท.", "ฉัตรชัย คร่ำกระโทก", "รอง สว.สสฯ", "ปค.416", "081-9224175"),
    Officer("ส.ต.ท.", "อัศนัย เรืองสาย", "รอง ผบ.หมู่ สสฯ", "ปค.4116", "099-1719842")
  ]

  const Team2Officers: seq<Officer> := [
    Officer("ร.ต.อ.", "จำเริญ ทิสมบูรณ์", "รอง สว.สสฯ", "ปค.411", "094-9692994"),
    Officer("ร.ต.ท.", "สมคิด บัวมาศ", "รอง สว.สสฯ", "ปค.415", "083-1997055"),
    Officer("ด.ต.", "กฤษ บัติพิมาย", "ผบ.หมู่ ป.ฯ", "ปค.4112", "098-6824652"),
    Officer("ส.ต.อ.", "ชยันธร แยบกระโทก", "ผบ.หมู่ ป.ฯ", "ปค.4114", "098-2845413")
  ]

  const Team3Officers: seq<Officer> := [
    Officer("ร.ต.อ.", "เกียรติศักดิ์ คำกุล", "รอง สว.สส.ฯ", "ปค.413", "095-8165176"),
    Officer("ส.ต.ท.", "ธีระ โฉมไธสง", "ผบ.หมู่ ป.ฯ", "ปค.4115", "064-2066256"),
    Officer("ส.ต.ท.", "ปภาวินทร์ ทิพย์ธรทอง", "ผบ.หมู่ ป.ฯ", "ปค.4116", "061-9296899")
  ]

  /** `teamOfficers`: the roster of each team. */
  const TeamOfficers: map<int, seq<Officer>> := map[1 := Team1Officers, 2 := Team2Officers, 3 := Team3Officers]

  const StationLine := "สภ.ปากคลองรังสิต ภ.จว.ปทุมธานี"
  const RuleLine := "__________________"
  const SalutationLine := "เรียน ผู้บังคับบัญชา"
  const DutyHeadingLine := "● ปฏิบัติหน้าที่ เวรสืบสวนประจำวันนี้"
  const TimeLine := "เวลา 08.00 น."
  const ClosingLine := "    จึงเรียนมาเพื่อโปรดทราบ"
  const DateLinePrefix := "   วันที่ "
  const TeamLinePrefix := "● ชุดปฏิบัติการ สืบสวนที่ "
  const PhonePrefix := "โทร."
  const WindowStartPrefix := "ตั้งแต่วันที่ "
  const WindowEndPrefix := "ถึงวันที่ "

  /** JavaScript's `a % 3`: the remainder of division truncated toward zero,
      which takes the sign of `a` (Dafny's own `%` never goes negative). */
  function JsRemainder3(a: int): (r: int)
    ensures -3 < r < 3
    ensures a >= 0 ==> r >= 0
    ensures a <= 0 ==> r <= 0
    ensures (a - r) % 3 == 0
  {
    if a >= 0 then a % 3 else -((-a) % 3)
  }

  /** `((diff % 3) + 3) % 3`: always an index of the rotation, and the
      mathematical residue of `diff`, for days before the reference date too. */
  function RotationIndex(diff: int): (idx: int)
    ensures 0 <= idx < |Rotation|
    ensures idx == diff % 3
  {
    JsRemainder3(JsRemainder3(diff) + 3)
  }

  /** The team on duty on date `d`. */
  function TeamForDate(d: Date): (team: int)
    requires Valid(d)
    ensures team in TeamOfficers
    ensures team == 1 || team == 2 || team == 3
    ensures team == Rotation[DifferenceInCalendarDays(d, ReferenceDate) % 3]
  {
    Rotation[RotationIndex(DifferenceInCalendarDays(d, ReferenceDate))]
  }

  function Roster(team: int): seq<Officer>
    requires team in TeamOfficers
  {
    TeamOfficers[team]
  }

  /** `fmtThai`: day of month, Thai month name and Buddhist-era year. */
  function FmtThai(d: Date): string
    requires Valid(d)
  {
    NatToString(d.day) + " " + ThaiMonths[d.month] + " " + IntToString(d.year + BuddhistEraOffset)
  }

  /** The first index of `x` in `xs`. */
  function Find(xs: seq<string>, x: string): (r: Option<nat>)
    ensures r.Some? ==> r.value < |xs| && xs[r.value] == x
    ensures r.Some? ==> forall j :: 0 <= j < r.value ==> xs[j] != x
    ensures r.None? <==> x !in xs
  {
    if |xs| == 0 then None
    else if xs[0] == x then Some(0)
    else match Find(xs[1..], x)
      case Some(i) => Some(i + 1)
      case None => None
  }

  /** Reads back a date written by `FmtThai`; the inverse used to state what
      `FmtThai` preserves. */
  function ParseThaiDate(s: string): Option<Date> {
    var parts := Split(s, ' ');
    if |parts| != 3 then None
    else
      match (ParseNat(parts[0]), Find(ThaiMonths, parts[1]), ParseInt(parts[2]))
      case (Some(day), Some(month), Some(year)) =>
        var d := Date(year - BuddhistEraOffset, month, day);
        if Valid(d) then Some(d) else None
      case _ => None
  }

  lemma MonthNamesDistinct()
    ensures |ThaiMonths| == 12
    ensures forall i, j :: 0 <= i < j < 12 ==> ThaiMonths[i] != ThaiMonths[j]
  {
  }

  /** No month name contains a space, a newline or the report's bullet. */
  lemma MonthNamesAvoid(m: int)
    requires 0 <= m < 12
    ensures ' ' !in ThaiMonths[m] && '\n' !in ThaiMonths[m] && '●' !in ThaiMonths[m]
  {
    MonthNameThai(m);
  }

  /** Every character of a month name is in the Thai block, U+0E00 to U+0E7F. */
  predicate ThaiScript(s: string) {
    forall i :: 0 <= i < |s| ==> 0x0E00 <= s[i] as int <= 0x0E7F
  }

  lemma MonthNameThai(m: int)
    requires 0 <= m < 12
    ensures ThaiScript(ThaiMonths[m])
  {
  }

  lemma FindMonth(m: int)
    requires 0 <= m < 12
    ensures Find(ThaiMonths, ThaiMonths[m]) == Some(m)
  {
    MonthNamesDistinct();
  }

  /** A character that is not a digit, a minus sign, a space or part of a
      month name never appears in a rendered date. */
  lemma FmtThaiAvoids(d: Date, c: char)
    requires Valid(d)
    requires !IsDigit(c) && c != '-' && c != ' '
    requires c !in ThaiMonths[d.month]
    ensures c !in FmtThai(d)
  {
    var day, year := NatToString(d.day), IntToString(d.year + BuddhistEraOffset);
    assert c !in day;
    assert c !in year by {
      if d.year + BuddhistEraOffset < 0 {
        assert year == [year[0]] + year[1..];
      }
    }
  }

  /** The three space-separated fields of a rendered date. */
  lemma SplitFmtThai(d: Date)
    requires Valid(d)
    ensures Split(FmtThai(d), ' ') == [NatToString(d.day), ThaiMonths[d.month], IntToString(d.year + BuddhistEraOffset)]
  {
    var day, month, year := NatToString(d.day), ThaiMonths[d.month], IntToString(d.year + BuddhistEraOffset);
    MonthNamesAvoid(d.month);
    assert ' ' !in day;
    assert ' ' !in year by {
      if d.year + BuddhistEraOffset < 0 {
        assert year == [year[0]] + year[1..];
      }
    }
    assert FmtThai(d) == day + [' '] + month + [' '] + year;
    SplitThree(day, month, year, ' ');
  }

  /** `FmtThai` loses nothing: the date can be read back from its rendering. */
  lemma FmtThaiRoundTrip(d: Date)
    requires Valid(d)
    ensures ParseThaiDate(FmtThai(d)) == Some(d)
  {
    var parts := Split(FmtThai(d), ' ');
    SplitFmtThai(d);
    ParseNatToString(d.day);
    ParseIntToString(d.year + BuddhistEraOffset);
    FindMonth(d.month);
    assert ParseNat(parts[0]) == Some(d.day);
    assert Find(ThaiMonths, parts[1]) == Some(d.month);
    assert ParseInt(parts[2]) == Some(d.year + BuddhistEraOffset);
    assert Date(d.year + BuddhistEraOffset - BuddhistEraOffset, d.month, d.day) == d;
  }

  lemma FmtThaiInjective(a: Date, b: Date)
    requires Valid(a) && Valid(b)
    ensures FmtThai(a) == FmtThai(b) <==> a == b
  {
    FmtThaiRoundTrip(a);
    FmtThaiRoundTrip(b);
  }

  /** The team line, `● ชุดปฏิบัติการ สืบสวนที่ <team>`. */
  function TeamLine(team: int): (line: string)
    ensures |TeamLinePrefix| < |line| && line[..|TeamLinePrefix|] == TeamLinePrefix
    ensures 0 <= team < 10 ==> line == TeamLinePrefix + [DigitChar(team)]
  {
    TeamLinePrefix + IntToString(team)
  }

  /** The three roster lines of one officer. */
  function OfficerLines(o: Officer): seq<string> {
    [o.rank + o.name, o.title + " (" + o.code + ")", PhonePrefix + o.phone]
  }

  /** `officers.flatMap(OfficerLines)`: three lines per officer, in roster order. */
  function RosterLines(officers: seq<Officer>): (lines: seq<string>)
    ensures |lines| == 3 * |officers|
    ensures forall i :: 0 <= i < |officers| ==> lines[3 * i] == officers[i].rank + officers[i].name
    ensures forall i :: 0 <= i < |officers| ==> lines[3 * i + 1] == officers[i].title + " (" + officers[i].code + ")"
    ensures forall i :: 0 <= i < |officers| ==> lines[3 * i + 2] == PhonePrefix + officers[i].phone
  {
    if |officers| == 0 then []
    else OfficerLines(officers[0]) + RosterLines(officers[1..])
  }

  /** The seven lines before the roster: station, rule, salutation, date and team. */
  function ReportHeader(date: Date, team: int): (lines: seq<string>)
    requires Valid(date)
    ensures |lines| == 7
    ensures lines[4] == DateLinePrefix + FmtThai(date)
    ensures lines[6] == TeamLine(team)
  {
    [
      StationLine,
      RuleLine,
      "",
      SalutationLine,
      DateLinePrefix + FmtThai(date),
      "",
      TeamLine(team)
    ]
  }

  /** The nine lines after the roster: the 24-hour duty window from 08.00 on
      `date` to 08.00 on the next day, and the closing. */
  function ReportTrailer(date: Date): (lines: seq<string>)
    requires Valid(date)
    ensures |lines| == 9
    ensures lines[2] == WindowStartPrefix + FmtThai(date)
    ensures lines[4] == WindowEndPrefix + FmtThai(NextDay(date))
  {
    [
      "",
      DutyHeadingLine,
      WindowStartPrefix + FmtThai(date),
      TimeLine,
      WindowEndPrefix + FmtThai(NextDay(date)),
      TimeLine,
      RuleLine,
      "",
      ClosingLine
    ]
  }

  /** The report's lines for `date`, naming `team` and listing `roster`. */
  function ReportLines(date: Date, team: int, roster: seq<Officer>): (lines: seq<string>)
    requires Valid(date)
    ensures |lines| == 16 + 3 * |roster|
    ensures lines[4] == DateLinePrefix + FmtThai(date)
    ensures lines[6] == TeamLine(team)
    ensures lines[7..7 + 3 * |roster|] == RosterLines(roster)
    ensures lines[9 + 3 * |roster|] == WindowStartPrefix + FmtThai(date)
    ensures lines[11 + 3 * |roster|] == WindowEndPrefix + FmtThai(NextDay(date))
  {
    ReportHeader(date, team) + RosterLines(roster) + ReportTrailer(date)
  }

  /** The lines of the duty report for `date`: the team on duty and its roster. */
  function DutyLines(date: Date): (lines: seq<string>)
    requires Valid(date)
    ensures |lines| == 16 + 3 * |Roster(TeamForDate(date))|
    ensures lines[4] == DateLinePrefix + FmtThai(date)
    ensures lines[6] == TeamLine(TeamForDate(date))
    ensures lines[7..7 + 3 * |Roster(TeamForDate(date))|] == RosterLines(Roster(TeamForDate(date)))
  {
    var team := TeamForDate(date);
    ReportLines(date, team, Roster(team))
  }

  /** `makeDutyMessageForDate`: the report as one text message. */
  function MakeDutyMessageForDate(date: Date): TextMessage
    requires Valid(date)
  {
    TextMessage(Join(DutyLines(date), '\n'))
  }

  /** The regular expression `/● ชุดปฏิบัติการ สืบสวนที่ \d/` matches at `i`. */
  predicate TeamLineMatchesAt(text: string, i: int) {
    OccursAt(text, TeamLinePrefix, i) && i + |TeamLinePrefix| < |text| && IsDigit(text[i + |TeamLinePrefix|])
  }

  /** The leftmost match of the team-line pattern at or after `from`. */
  function FirstTeamLineMatch(text: string, from: nat): (r: Option<nat>)
    requires from <= |text|
    ensures r.Some? ==> from <= r.value && TeamLineMatchesAt(text, r.value)
    ensures r.Some? ==> forall j :: from <= j < r.value ==> !TeamLineMatchesAt(text, j)
    ensures r.None? ==> forall j :: from <= j <= |text| ==> !TeamLineMatchesAt(text, j)
    decreases |text| - from
  {
    if TeamLineMatchesAt(text, from) then Some(from)
    else if from == |text| then None
    else FirstTeamLineMatch(text, from + 1)
  }

  /** `text.match(/● ชุดปฏิบัติการ สืบสวนที่ \d/)[0]`, or `None` where
      `match` returns null. */
  function MatchTeamLine(text: string): (r: Option<string>)
    ensures r.Some? ==> |r.value| == |TeamLinePrefix| + 1 && r.value[..|TeamLinePrefix|] == TeamLinePrefix
    ensures r.Some? ==> IsDigit(r.value[|TeamLinePrefix|])
    ensures r.None? <==> forall j :: 0 <= j <= |text| ==> !TeamLineMatchesAt(text, j)
    ensures r.Some? ==> exists i ::
      0 <= i <= |text| && TeamLineMatchesAt(text, i) &&
      (forall j :: 0 <= j < i ==> !TeamLineMatchesAt(text, j)) &&
      r.value == text[i..i + |TeamLinePrefix| + 1]
  {
    match FirstTeamLineMatch(text, 0)
    case Some(i) =>
      assert TeamLineMatchesAt(text, i);
      Some(text[i..i + |TeamLinePrefix| + 1])
    case None => None
  }

  /** The rotation has period three days: `n` days later the same team is
      on duty exactly when `n` is a multiple of three. */
  lemma TeamCycle(d: Date, n: nat)
    requires Valid(d)
    ensures TeamForDate(AddDays(d, n)) == TeamForDate(d) <==> n % 3 == 0
  {
    var x := DifferenceInCalendarDays(d, ReferenceDate);
    AddDaysNumber(d, n);
    assert DifferenceInCalendarDays(AddDays(d, n), ReferenceDate) == x + n;
    var i, j := x % 3, (x + n) % 3;
    assert TeamForDate(d) == Rotation[i];
    assert TeamForDate(AddDays(d, n)) == Rotation[j];
    assert Rotation[i] == Rotation[j] <==> i == j;
    ShiftResidue(x, n);
  }

  lemma ShiftResidue(x: int, n: int)
    ensures (x + n) % 3 == x % 3 <==> n % 3 == 0
    ensures (x + 1) % 3 == (x % 3 + 1) % 3
  {
  }

  /** The next day is on duty for the next team of the rotation order. */
  lemma TeamAdvances(d: Date)
    requires Valid(d)
    ensures TeamForDate(NextDay(d)) == Rotation[(RotationIndex(DifferenceInCalendarDays(d, ReferenceDate)) + 1) % 3]
  {
    var x := DifferenceInCalendarDays(d, ReferenceDate);
    NextDayNumber(d);
    assert DifferenceInCalendarDays(NextDay(d), ReferenceDate) == x + 1;
    assert TeamForDate(NextDay(d)) == Rotation[(x + 1) % 3];
    ShiftResidue(x, 1);
  }

  /** The rotation names each team of the table exactly once. */
  lemma RotationCoversTable()
    ensures forall i :: 0 <= i < |Rotation| ==> Rotation[i] in TeamOfficers
    ensures forall t :: t in TeamOfficers ==> t in Rotation
    ensures forall i, j :: 0 <= i < j < |Rotation| ==> Rotation[i] != Rotation[j]
  {
  }

  lemma RotationScenarios()
    ensures TeamForDate(Date(2025, 7, 1)) == 3
    ensures TeamForDate(Date(2025, 7, 2)) == 1
    ensures TeamForDate(Date(2025, 7, 3)) == 2
    ensures TeamForDate(Date(2025, 7, 4)) == 3
    ensures TeamForDate(Date(2025, 6, 31)) == 2
  {
  }

  /** The duty window of the last day of 2025 ends in the first day of 2026,
      written as Buddhist-era 2569. */
  lemma YearEndWindow()
    ensures FmtThai(Date(2025, 11, 31)) == "31 " + ThaiMonths[11] + " 2568"
    ensures FmtThai(NextDay(Date(2025, 11, 31))) == "1 " + ThaiMonths[0] + " 2569"
  {
    assert NextDay(Date(2025, 11, 31)) == Date(2026, 0, 1);
    YearEndNumerals();
  }

  lemma YearEndNumerals()
    ensures NatToString(1) == "1" && NatToString(31) == "31"
    ensures IntToString(2568) == "2568" && IntToString(2569) == "2569"
  {
    assert NatToString(31) == "31";
    assert NatToString(2568) == NatToString(256) + "8" == NatToString(25) + "6" + "8" == "2568";
    assert NatToString(2569) == NatToString(256) + "9" == "2569";
  }

  predicate OfficerPlain(o: Officer) {
    Lacks(o.rank, Newline) && Lacks(o.name, Newline) && Lacks(o.title, Newline) && Lacks(o.code, Newline) && Lacks(o.phone, Newline)
  }

  predicate RosterPlain(roster: seq<Officer>) {
    forall i :: 0 <= i < |roster| ==> OfficerPlain(roster[i])
  }

  /** Code points of the newline and of the bullet `●`. */
  const Newline := 10
  const Bullet := 0x25CF

  /** The fixed lines of the header hold neither a newline nor the bullet;
      the team-line prefix holds no newline. */
  lemma HeaderLinesLack()
    ensures Lacks(StationLine, Newline) && Lacks(RuleLine, Newline) && Lacks(SalutationLine, Newline)
    ensures Lacks(DateLinePrefix, Newline) && Lacks(TeamLinePrefix, Newline)
    ensures Lacks(StationLine, Bullet) && Lacks(RuleLine, Bullet) && Lacks(SalutationLine, Bullet)
    ensures Lacks(DateLinePrefix, Bullet)
  {
  }

  /** The fixed lines of the trailer hold no newline. */
  lemma TrailerLinesLack()
    ensures Lacks(DutyHeadingLine, Newline) && Lacks(TimeLine, Newline) && Lacks(ClosingLine, Newline)
    ensures Lacks(WindowStartPrefix, Newline) && Lacks(WindowEndPrefix, Newline)
  {
  }

  lemma Team1Officer0Plain()
    ensures OfficerPlain(Team1Officers[0])
  {
  }

  lemma Team1Officer1Plain()
    ensures OfficerPlain(Team1Officers[1])
  {
  }

  lemma Team1Officer2Plain()
    ensures OfficerPlain(Team1Officers[2])
  {
  }

  lemma Team2Officer0Plain()
    ensures OfficerPlain(Team2Officers[0])
  {
  }

  lemma Team2Officer1Plain()
    ensures OfficerPlain(Team2Officers[1])
  {
  }

  lemma Team2Officer2Plain()
    ensures OfficerPlain(Team2Officers[2])
  {
  }

  lemma Team2Officer3Plain()
    ensures OfficerPlain(Team2Officers[3])
  {
  }

  lemma Team3Officer0Plain()
    ensures OfficerPlain(Team3Officers[0])
  {
  }

  lemma Team3Officer1Plain()
    ensures OfficerPlain(Team3Officers[1])
  {
  }

  lemma Team3Officer2Plain()
    ensures OfficerPlain(Team3Officers[2])
  {
  }

  /** No roster of the table holds a newline in any field. */
  lemma TablePlain(team: int)
    requires team in TeamOfficers
    ensures RosterPlain(Roster(team))
  {
    Team1Officer0Plain();
    Team1Officer1Plain();
    Team1Officer2Plain();
    Team2Officer0Plain();
    Team2Officer1Plain();
    Team2Officer2Plain();
    Team2Officer3Plain();
    Team3Officer0Plain();
    Team3Officer1Plain();
    Team3Officer2Plain();
    assert |Team1Officers| == 3 && |Team2Officers| == 4 && |Team3Officers| == 3;
  }

  /** No line of `lines` contains `c`. */
  predicate LinesAvoid(lines: seq<string>, c: char) {
    forall i :: 0 <= i < |lines| ==> c !in lines[i]
  }

  lemma {:induction false} RosterLinesAvoidNewline(roster: seq<Officer>)
    requires RosterPlain(roster)
    ensures LinesAvoid(RosterLines(roster), '\n')
  {
    if |roster| > 0 {
      var o := roster[0];
      assert OfficerPlain(o);
      LacksMeans(o.rank, '\n');
      LacksMeans(o.name, '\n');
      LacksMeans(o.title, '\n');
      LacksMeans(o.code, '\n');
      LacksMeans(o.phone, '\n');
      assert RosterPlain(roster[1..]) by {
        forall i | 0 <= i < |roster| - 1 ensures OfficerPlain(roster[1..][i]) {
          assert roster[1..][i] == roster[i + 1];
        }
      }
      RosterLinesAvoidNewline(roster[1..]);
      assert LinesAvoid(OfficerLines(o), '\n');
    }
  }

  lemma HeaderAvoids(date: Date, team: int)
    requires Valid(date) && 0 <= team
    ensures LinesAvoid(ReportHeader(date, team), '\n')
    ensures forall i :: 0 <= i < 6 ==> '●' !in ReportHeader(date, team)[i]
  {
    HeaderLinesLack();
    LacksMeans(StationLine, '\n');
    LacksMeans(RuleLine, '\n');
    LacksMeans(SalutationLine, '\n');
    LacksMeans(DateLinePrefix, '\n');
    LacksMeans(TeamLinePrefix, '\n');
    LacksMeans(StationLine, '●');
    LacksMeans(RuleLine, '●');
    LacksMeans(SalutationLine, '●');
    LacksMeans(DateLinePrefix, '●');
    MonthNamesAvoid(date.month);
    FmtThaiAvoids(date, '\n');
    FmtThaiAvoids(date, '●');
    assert '\n' !in IntToString(team);
  }

  lemma TrailerAvoidsNewline(date: Date)
    requires Valid(date)
    ensures LinesAvoid(ReportTrailer(date), '\n')
  {
    HeaderLinesLack();
    TrailerLinesLack();
    LacksMeans(DutyHeadingLine, '\n');
    LacksMeans(TimeLine, '\n');
    LacksMeans(RuleLine, '\n');
    LacksMeans(ClosingLine, '\n');
    LacksMeans(WindowStartPrefix, '\n');
    LacksMeans(WindowEndPrefix, '\n');
    MonthNamesAvoid(date.month);
    MonthNamesAvoid(NextDay(date).month);
    FmtThaiAvoids(date, '\n');
    FmtThaiAvoids(NextDay(date), '\n');
  }

  lemma ReportLinesAvoidNewline(date: Date, team: int, roster: seq<Officer>)
    requires Valid(date) && 0 <= team && RosterPlain(roster)
    ensures LinesAvoid(ReportLines(date, team, roster), '\n')
  {
    HeaderAvoids(date, team);
    RosterLinesAvoidNewline(roster);
    TrailerAvoidsNewline(date);
  }

  /** Splitting the message text at newlines gives back exactly the report's
      lines, whenever no officer field holds a newline. */
  lemma ReportSplitsBack(date: Date, team: int, roster: seq<Officer>)
    requires Valid(date) && 0 <= team && RosterPlain(roster)
    ensures Split(Join(ReportLines(date, team, roster), '\n'), '\n') == ReportLines(date, team, roster)
  {
    ReportLinesAvoidNewline(date, team, roster);
    SplitJoin(ReportLines(date, team, roster), '\n');
  }

  /** The duty message splits back into its lines: 16 fixed lines and three
      per officer of the team on duty. */
  lemma DutyMessageLines(date: Date)
    requires Valid(date)
    ensures Split(MakeDutyMessageForDate(date).text, '\n') == DutyLines(date)
    ensures |Split(MakeDutyMessageForDate(date).text, '\n')| == 16 + 3 * |Roster(TeamForDate(date))|
  {
    var team := TeamForDate(date);
    TablePlain(team);
    ReportSplitsBack(date, team, Roster(team));
  }

  /** A text made of a bullet-free part, then a team line, is matched at the team line. */
  lemma {:induction false} MatchAfterBulletFree(h: string, line: string, rest: string)
    requires '●' !in h
    requires |line| == |TeamLinePrefix| + 1 && line[..|TeamLinePrefix|] == TeamLinePrefix
    requires IsDigit(line[|TeamLinePrefix|])
    ensures MatchTeamLine(h + line + rest) == Some(line)
  {
    var text := h + line + rest;
    var p := |TeamLinePrefix|;
    assert text[|h|..|h| + p] == TeamLinePrefix;
    assert TeamLineMatchesAt(text, |h|);
    var r := FirstTeamLineMatch(text, 0);
    assert r.Some?;
    forall j | 0 <= j < |h|
      ensures !TeamLineMatchesAt(text, j)
    {
      assert text[j] == h[j];
      assert TeamLinePrefix[0] == '●';
    }
    assert r.value == |h|;
    assert text[|h|..|h| + p + 1] == line;
  }

  /** In a report for a one-digit team, the team-line pattern matches the team line. */
  lemma ReportTeamLineMatch(date: Date, team: int, roster: seq<Officer>)
    requires Valid(date) && 0 <= team < 10
    ensures MatchTeamLine(Join(ReportLines(date, team, roster), '\n')) == Some(TeamLine(team))
  {
    var lines := ReportLines(date, team, roster);
    HeaderAvoids(date, team);
    assert lines[..6] == ReportHeader(date, team)[..6];
    MatchSeventhLine(lines, TeamLine(team));
  }

  /** A team line as the seventh of several lines, below six bullet-free
      lines, is what the pattern matches in the joined text. */
  lemma MatchSeventhLine(lines: seq<string>, line: string)
    requires 8 <= |lines| && lines[6] == line
    requires forall i :: 0 <= i < 6 ==> '●' !in lines[i]
    requires |line| == |TeamLinePrefix| + 1 && line[..|TeamLinePrefix|] == TeamLinePrefix
    requires IsDigit(line[|TeamLinePrefix|])
    ensures MatchTeamLine(Join(lines, '\n')) == Some(line)
  {
    JoinAround(lines, 6, '\n');
    assert forall i :: 0 <= i < 6 ==> lines[..6][i] == lines[i];
    JoinAvoids(lines[..6], '\n', '●');
    MatchBetweenLines(Join(lines[..6], '\n'), line, Join(lines[7..], '\n'));
  }

  lemma MatchBetweenLines(above: string, line: string, below: string)
    requires '●' !in above
    requires |line| == |TeamLinePrefix| + 1 && line[..|TeamLinePrefix|] == TeamLinePrefix
    requires IsDigit(line[|TeamLinePrefix|])
    ensures MatchTeamLine(above + ['\n'] + line + ['\n'] + below) == Some(line)
  {
    var h, rest := above + ['\n'], ['\n'] + below;
    assert above + ['\n'] + line + ['\n'] + below == h + line + rest;
    MatchAfterBulletFree(h, line, rest);
  }

  /** The team-line extraction of the scheduled handler always succeeds on
      the duty message and yields the team line with the team's single digit. */
  lemma TeamLineExtracted(date: Date)
    requires Valid(date)
    ensures MatchTeamLine(MakeDutyMessageForDate(date).text) == Some(TeamLine(TeamForDate(date)))
    ensures TeamLine(TeamForDate(date)) == TeamLinePrefix + [DigitChar(TeamForDate(date))]
  {
    var team := TeamForDate(date);
    ReportTeamLineMatch(date, team, Roster(team));
  }
}
