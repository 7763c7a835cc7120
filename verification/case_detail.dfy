/** The case detail panel's logic: age from a birth date, the category
    multi-select, the read-only display texts, and the edit state loaded
    from a case. Dates are calendar triples; "today" is a parameter. */
module CaseDetail {
  import opened Wrappers
  import opened Text
  import Seqs

  /** A calendar date as read by `getFullYear`, `getMonth`, `getDate`. Only
      differences and comparisons of months are used, so whether months
      count from 0 or 1 does not matter. */
  datatype CalendarDate = CalendarDate(year: int, month: int, day: int)

  /** `a`'s (month, day) falls strictly before `b`'s within a year. */
  predicate MonthDayBefore(a: CalendarDate, b: CalendarDate)
  {
    a.month < b.month || (a.month == b.month && a.day < b.day)
  }

  /** Calendar order of dates. */
  predicate OnOrBefore(a: CalendarDate, b: CalendarDate)
  {
    a.year < b.year || (a.year == b.year && !MonthDayBefore(b, a))
  }

  /** Whole years of age on `today`: the difference of the years, less one
      while this year's birthday is still to come. */
  function CalculateAge(birthdate: CalendarDate, today: CalendarDate): (age: int)
    ensures MonthDayBefore(today, birthdate) ==> age == today.year - birthdate.year - 1
    ensures !MonthDayBefore(today, birthdate) ==> age == today.year - birthdate.year
  {
    var age := today.year - birthdate.year;
    var m := today.month - birthdate.month;
    if m < 0 || (m == 0 && today.day < birthdate.day) then age - 1 else age
  }

  /** On the birthday itself the new year of age has begun. */
  lemma AgeOnBirthday(birthdate: CalendarDate, year: int)
    ensures CalculateAge(birthdate, CalendarDate(year, birthdate.month, birthdate.day)) == year - birthdate.year
  {
  }

  /** Nobody born on or before today has a negative age. */
  lemma AgeNonNegative(birthdate: CalendarDate, today: CalendarDate)
    requires OnOrBefore(birthdate, today)
    ensures CalculateAge(birthdate, today) >= 0
  {
  }

  /** Age never decreases as today advances. */
  lemma AgeMonotone(birthdate: CalendarDate, today1: CalendarDate, today2: CalendarDate)
    requires OnOrBefore(today1, today2)
    ensures CalculateAge(birthdate, today1) <= CalculateAge(birthdate, today2)
  {
  }

  /** Born 15 June 2015: nine years old on 14 June 2025, ten on 15 June 2025. */
  lemma AgeExample()
    ensures CalculateAge(CalendarDate(2015, 5, 15), CalendarDate(2025, 5, 14)) == 9
    ensures CalculateAge(CalendarDate(2015, 5, 15), CalendarDate(2025, 5, 15)) == 10
  {
  }

  /** The categories offered by the multi-select. */
  const Categories: seq<string> := ["第一類", "第二類", "第三類", "第七類", "其他", "舊制無法對照"]

  function Not(category: string): string -> bool
  {
    (c: string) => c != category
  }

  /** Ticking a category: a selected category is removed (every occurrence,
      the rest kept in order); an unselected one is appended at the end.
      Only the ticked category changes membership. */
  function ToggleCategory(value: seq<string>, category: string): (r: seq<string>)
    ensures category in r <==> category !in value
    ensures forall c :: c != category ==> (c in r <==> c in value)
    ensures category !in value ==> r == value + [category]
    ensures category in value ==> Seqs.IsSubsequence(r, value) && |r| < |value|
    ensures forall c :: c != category ==> multiset(r)[c] == multiset(value)[c]
  {
    if category in value then
      Seqs.FilterIsSubsequence(value, Not(category));
      Seqs.FilterMembers(value, Not(category));
      Seqs.FilterKeepsMultiplicities(value, Not(category));
      Seqs.FilterDropsRejected(value, Not(category), category);
      Seqs.Filter(value, Not(category))
    else value + [category]
  }

  /** The multi-select's button text: the selected categories joined by
      ", ", or the prompt "選擇類別" when none is selected. */
  function SelectButtonLabel(value: seq<string>): (text: string)
    ensures |value| == 0 ==> text == "選擇類別"
    ensures |value| > 0 ==> text == TypesLabel(value)
  {
    if |value| > 0 then Join(value, ", ") else "選擇類別"
  }

  /** Ticking offered categories only ever selects offered categories, and
      never the same one twice. */
  lemma ToggleKeepsOfferedCategories(value: seq<string>, i: nat)
    requires i < |Categories|
    requires forall c :: c in value ==> c in Categories
    requires forall j, k :: 0 <= j < k < |value| ==> value[j] != value[k]
    ensures var r := ToggleCategory(value, Categories[i]);
            && (forall c :: c in r ==> c in Categories)
            && (forall j, k :: 0 <= j < k < |r| ==> r[j] != r[k])
  {
    var c := Categories[i];
    var r := ToggleCategory(value, c);
    if c in value {
      forall x | x in value
        ensures multiset(value)[x] <= 1
      {
        DistinctCount(value, x);
      }
      forall j, k | 0 <= j < k < |r|
        ensures r[j] != r[k]
      {
        var x := r[j];
        assert x in r;
        assert x != c && x in value;
        assert multiset(r)[x] <= 1;
        if r[j] == r[k] {
          TwiceCounted(r, j, k);
        }
      }
    } else {
      forall j, k | 0 <= j < k < |r|
        ensures r[j] != r[k]
      {
        if k == |value| {
          assert value[j] in value;
        }
      }
    }
  }

  /** In a list without repeats every value occurs at most once. */
  lemma {:induction false} DistinctCount(s: seq<string>, x: string)
    requires forall j, k :: 0 <= j < k < |s| ==> s[j] != s[k]
    ensures multiset(s)[x] <= 1
  {
    if |s| > 0 {
      DistinctCount(s[1..], x);
      assert s == [s[0]] + s[1..];
      if s[0] == x {
        assert x !in s[1..];
      }
    }
  }

  /** A value at two positions occurs at least twice. */
  lemma {:induction false} TwiceCounted(s: seq<string>, j: nat, k: nat)
    requires j < k < |s| && s[j] == s[k]
    ensures multiset(s)[s[j]] >= 2
  {
    assert s == s[..j] + [s[j]] + s[j + 1..k] + [s[k]] + s[k + 1..];
  }

  /** Ticking an unselected category twice restores the selection. */
  lemma ToggleTwiceRestores(value: seq<string>, category: string)
    requires category !in value
    ensures ToggleCategory(ToggleCategory(value, category), category) == value
  {
    var added := value + [category];
    forall i | 0 <= i < |value|
      ensures Not(category)(value[i])
    {
      assert value[i] in value;
    }
    Seqs.FilterSkipsOne(value, category, [], Not(category));
    assert value + [category] + [] == added;
    assert value + [] == value;
  }

  /** The sex shown for a stored gender value. */
  function GenderLabel(gender: string): (text: string)
    ensures text == "男" <==> gender == "male"
    ensures text == "女" <==> gender == "female"
    ensures text == "其他" <==> gender != "male" && gender != "female"
  {
    if gender == "male" then "男" else if gender == "female" then "女" else "其他"
  }

  /** The editor's radio choices: stored value and the text beside it. */
  const GenderChoices: seq<(string, string)> := [("male", "男"), ("female", "女")]

  /** The read-only view shows each choice's value with the same text the
      editor's radio button shows beside it, and distinct choices read
      differently. */
  lemma GenderChoicesMatchView()
    ensures forall i :: 0 <= i < |GenderChoices| ==> GenderLabel(GenderChoices[i].0) == GenderChoices[i].1
    ensures forall i, j :: 0 <= i < j < |GenderChoices| ==> GenderChoices[i].1 != GenderChoices[j].1
  {
  }

  /** The category line: "無" for no categories, else the names in order
      with ", " between neighbours. */
  function TypesLabel(types: seq<string>): (text: string)
    ensures |types| == 0 ==> text == "無"
    ensures |types| == 1 ==> text == types[0]
    ensures |types| > 0 ==> |text| == TotalLength(types) + 2 * (|types| - 1)
    ensures |types| > 0 ==> PartsAt(text, types, ", ") && SepsAt(text, types, ", ")
  {
    if |types| > 0 then Join(types, ", ") else "無"
  }

  /** The remark line: the description, or "無備註" when it is empty or null. */
  function DescriptionLabel(description: Option<string>): (text: string)
    ensures description.None? || description.value == "" ==> text == "無備註"
    ensures description.Some? && description.value != "" ==> text == description.value
  {
    if description.Some? && description.value != "" then description.value else "無備註"
  }

  /** A case record as the server returns it; the description may be null. */
  datatype Case = Case(
    id: int,
    name: string,
    birthdate: CalendarDate,
    caseDescription: Option<string>,
    gender: string,
    types: seq<string>,
    createdAt: int,
    updatedAt: int)

  /** The inline editor's state. */
  datatype CaseEdit = CaseEdit(
    name: string,
    birthdate: CalendarDate,
    gender: string,
    types: seq<string>,
    caseDescription: string)

  /** The editor's state before any case is loaded: nothing typed, dated
      today, and reading as a male newborn without categories. */
  function InitialEdit(today: CalendarDate): (e: CaseEdit)
    ensures e.name == "" && e.caseDescription == "" && e.birthdate == today
    ensures GenderLabel(e.gender) == "男" && CalculateAge(e.birthdate, today) == 0
    ensures TypesLabel(e.types) == "無" && SelectButtonLabel(e.types) == "選擇類別"
  {
    CaseEdit("", today, "male", [], "")
  }

  /** The effect run when the displayed case changes: a loaded case is copied
      into the editor, an empty or null description becoming ""; without a
      case the editor keeps its state. */
  function EditStateFor(caseData: Option<Case>, current: CaseEdit): (e: CaseEdit)
    ensures caseData.None? ==> e == current
    ensures caseData.Some? ==>
              var c := caseData.value;
              && e.name == c.name && e.birthdate == c.birthdate && e.gender == c.gender && e.types == c.types
              && (c.caseDescription.None? ==> e.caseDescription == "")
              && (c.caseDescription.Some? ==> e.caseDescription == c.caseDescription.value)
  {
    match caseData
    case None => current
    case Some(c) => CaseEdit(c.name, c.birthdate, c.gender, c.types, c.caseDescription.GetOr(""))
  }

  /** Until a case arrives, the editor keeps its initial state. */
  lemma NoCaseKeepsInitialEdit(today: CalendarDate)
    ensures EditStateFor(None, InitialEdit(today)) == InitialEdit(today)
    ensures EditStateFor(None, InitialEdit(today)).types == []
  {
  }

  /** The editor opens empty exactly where the read-only view shows "無備註",
      and otherwise with the text the view shows. */
  lemma EditStateMatchesView(c: Case, current: CaseEdit)
    ensures var e := EditStateFor(Some(c), current);
            && (e.caseDescription == "" ==> DescriptionLabel(c.caseDescription) == "無備註")
            && (e.caseDescription != "" ==> DescriptionLabel(c.caseDescription) == e.caseDescription)
  {
  }
}
