/** The expense record and the closed set of category tags. */
module Records {
  import opened Text

  /** The category tags offered by the form's select (`categories`, their labels and colours aside). */
  datatype Category = Food | Travel | Bills | Entertainment | Shopping | Health | Other

  /** The tag string each category is stored and compared as. */
  function CategoryName(c: Category): string {
    match c
    case Food => "food"
    case Travel => "travel"
    case Bills => "bills"
    case Entertainment => "entertainment"
    case Shopping => "shopping"
    case Health => "health"
    case Other => "other"
  }

  /** One stored expense. `date` is the `YYYY-MM-DD` string of the date input; `amount` is exact. */
  datatype Expense = Expense(id: int, amount: real, date: string, note: string, category: Category)

  /** `date.substring(0, 7)`: the `YYYY-MM` month key of a date. */
  function MonthOf(date: string): (m: string)
    ensures |m| == if |date| < 7 then |date| else 7
    ensures m <= date
  {
    Prefix(date, 7)
  }

  /** The record shape a successful submit produces: a positive amount, a date, and a
      non-empty note with no surrounding whitespace. */
  predicate WellFormed(e: Expense) {
    e.amount > 0.0 && e.date != [] && IsTrimmed(e.note)
  }

  /** Non-empty, and neither starts nor ends with whitespace. */
  predicate IsTrimmed(s: string) {
    s != [] && !IsWhitespace(s[0]) && !IsWhitespace(s[|s| - 1])
  }

  /** A trimmed note is its own `trim()`. */
  lemma TrimmedIsFixed(s: string)
    requires IsTrimmed(s)
    ensures Trim(s) == s
  {
  }

  function CategoryOf(e: Expense): Category { e.category }

  function DateOf(e: Expense): string { e.date }

  function MonthKey(e: Expense): string { MonthOf(e.date) }
}
