/** Age and category of a member, as `/createUser` derives them (index.js). */
module Members {
  import opened Js
  import opened Chrono

  /** Members younger than this are in the KIDS category. */
  const KidsAgeLimit := 13

  /** `a` comes strictly before `b`, comparing year, then month, then date. */
  predicate Before(a: Civil, b: Civil) {
    a.year < b.year
    || (a.year == b.year && (a.month < b.month || (a.month == b.month && a.date < b.date)))
  }

  /** The same month and date, `years` years after `birth`. */
  function Anniversary(birth: Civil, years: int): Civil {
    Civil(birth.year + years, birth.month, birth.date)
  }

  /** `age` whole years have passed: the `age`-th anniversary is reached on
      `today` and the next one is not. */
  predicate IsAge(birth: Civil, today: Civil, age: int) {
    !Before(today, Anniversary(birth, age)) && Before(today, Anniversary(birth, age + 1))
  }

  /** `calculerAge`: the year difference, one less when this year's birthday is
      still to come. Both dates are local calendar dates. */
  method AgeOn(birth: Civil, today: Civil) returns (age: int)
    ensures IsAge(birth, today, age)
  {
    age := today.year - birth.year;
    var m := today.month - birth.month;
    if m < 0 || (m == 0 && today.date < birth.date) {
      age := age - 1;
    }
  }

  /** At most one number of years fits a pair of dates. */
  lemma {:induction false} AgeIsUnique(birth: Civil, today: Civil, a: int, b: int)
    requires IsAge(birth, today, a) && IsAge(birth, today, b)
    ensures a == b
  {
  }

  /** Born 2010-06-16, a member is 13 on 2024-06-15; born 2010-06-15, 14. */
  lemma AgeExamples()
    ensures forall age :: IsAge(Civil(2010, 5, 16), Civil(2024, 5, 15), age) <==> age == 13
    ensures forall age :: IsAge(Civil(2010, 5, 15), Civil(2024, 5, 15), age) <==> age == 14
  {
    forall age | IsAge(Civil(2010, 5, 16), Civil(2024, 5, 15), age)
      ensures age == 13
    {
      AgeIsUnique(Civil(2010, 5, 16), Civil(2024, 5, 15), age, 13);
    }
    forall age | IsAge(Civil(2010, 5, 15), Civil(2024, 5, 15), age)
      ensures age == 14
    {
      AgeIsUnique(Civil(2010, 5, 15), Civil(2024, 5, 15), age, 14);
    }
  }

  /** Only 'f' and 'F' upper-case to 'F'. */
  lemma UpperStartsWithF(sex: string)
    ensures StartsWith(ToUpper(sex), "F") <==> |sex| > 0 && (sex[0] == 'F' || sex[0] == 'f')
  {
    if |sex| > 0 {
      assert ToUpper(sex)[0] == UpperChar(sex[0]);
    }
  }

  /** The category stored in `type` at creation: KIDS under 13 whatever the sex,
      otherwise FEMALE when the declared sex starts with an f or F, else MALE. */
  function UserCategory(age: int, sex: string): (category: string)
    ensures age < KidsAgeLimit ==> category == "KIDS"
    ensures age >= KidsAgeLimit ==>
      category == (if |sex| > 0 && (sex[0] == 'F' || sex[0] == 'f') then "FEMALE" else "MALE")
  {
    UpperStartsWithF(sex);
    if age < KidsAgeLimit then "KIDS"
    else if StartsWith(ToUpper(sex), "F") then "FEMALE"
    else "MALE"
  }
}
