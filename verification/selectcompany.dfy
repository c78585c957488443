/**
 * The company selection page (av2000_terminator/navigation/pages/select_company.py):
 * its name, its readiness test, and `set_company`, which RETURNS its
 * exceptions instead of raising them.
 */
module SelectCompany {
  import opened Wrappers
  import opened PyText
  import opened Errors
  import opened Session
  import Py

  const PageName: string := "Codice azienda"

  /** The message of the exceptions for an id of the wrong type or out of range. */
  const RangeMessage: string := "Only integers values between 1 (included) and 99 (included) are accepter"

  /** The message of the exception for an id other than 99. */
  const SafetyMessage: string := "For safety reasons only company id 99 is accepted"

  /** `name`: row 11, stripped (this page does not use the title row). */
  function Name(lines: Display): string {
    Strip(lines[11])
  }

  /** `ready`. */
  predicate Ready(lines: Display) {
    Name(lines) == PageName
  }

  /**
   * `set_company(company_id)`: the exception object it returns, if any.
   * `bool` passes the `isinstance(..., int)` test, as in Python.
   */
  function SetCompany(companyId: Py.Value): (r: Option<Exc>)
    ensures !Py.IsInt(companyId) ==> r == Some(TypeError)
    ensures Py.IsInt(companyId) && !(1 <= Py.IntOf(companyId) <= 99) ==> r == Some(ValueError)
    ensures Py.IsInt(companyId) && 1 <= Py.IntOf(companyId) <= 99 && Py.IntOf(companyId) != 99 ==> r == Some(RuntimeError(SafetyMessage))
  {
    if !Py.IsInt(companyId) then Some(TypeError)
    else if !(1 <= Py.IntOf(companyId) <= 99) then Some(ValueError)
    else if Py.IntOf(companyId) != 99 then Some(RuntimeError(SafetyMessage))
    else None
  }

  /** Nothing is returned exactly for the integer 99; `True` (which is 1) is refused for safety. */
  lemma OnlyNinetyNine(companyId: Py.Value)
    ensures SetCompany(companyId).None? <==> companyId == Py.Int(99)
    ensures SetCompany(Py.Bool(true)) == Some(RuntimeError(SafetyMessage))
    ensures SetCompany(Py.Str("99")) == Some(TypeError)
  {
  }
}
