/** Vocabulary shared by the two data-access objects: nullable column values,
    the checked SQLException that any JDBC statement may raise, and the
    CHAR(1) 'Y'/'N' encoding both tables use for booleans. */
module Sql {

  /** A nullable column or field (SQL NULL, Java null). */
  datatype Option<+T> = None | Some(value: T)

  /** An SQLException. Why the database raised it (lost connection, rejected
      statement, violated constraint) is the database's business and is not
      modelled; the DAOs only pass it on. */
  datatype SqlException = SqlException

  /** The outcome of a DAO call: a value, or the exception it rethrows. */
  datatype Result<+T> = Ok(value: T) | Err(error: SqlException)

  /** The CHAR(1) flag written for a Java boolean (`b ? "Y" : "N"`). */
  function YesNo(b: bool): (c: char)
    ensures c == 'Y' || c == 'N'
    ensures c == 'Y' <==> b
  {
    if b then 'Y' else 'N'
  }
}
