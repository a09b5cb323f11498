/** Typed outcomes. The shortener itself reports failures as sentinel strings
    ("Error: Invalid URL format.", "Error: Shortened URL not found.") and the
    SQL backend raises sqlite3.IntegrityError or ValueError; here each of those
    becomes an Error value in a Result or Outcome. */
module Results {

  datatype Option<T> = None | Some(value: T)

  datatype Error =
    | InvalidUrl                  // shorten: the normalised URL fails the syntax check
    | NotFound                    // resolve: empty or unknown identifier
    | IntegrityError              // SQL save: primary-key or uniqueness violation
    | UnsupportedConnectionString // SQL connect: scheme is neither sqlite:// nor file:

  datatype Result<T> = Success(value: T) | Failure(error: Error)

  datatype Outcome = Pass | Fail(error: Error)
}
