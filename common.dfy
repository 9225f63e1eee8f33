/** Shared value types: optional values, results and the error conditions the
    scanner reports (each constructor stands for one `anyhow` context message). */
module Common {

  datatype Option<+T> = None | Some(value: T) {
    function GetOr(default: T): T {
      match this
      case Some(v) => v
      case None => default
    }
  }

  datatype Result<+T, +E> = Ok(value: T) | Err(error: E)

  /** Result of an operation that produces no value. */
  datatype Outcome<+E> = Pass | Fail(error: E)

  /** How an attempt to append to (or truncate) the debug log file ended. */
  datatype FileIo = Written | OpenFailed | WriteFailed

  datatype Error =
    // scanner
    | InvalidHttpMethod                  // "Invalid HTTP method"
    | SendFailed(url: string)            // "Failed to send request to: {url}"
    | ResponseReadFailed                 // "Failed to read response body"
    | BaselineSendFailed(url: string)    // "Failed to establish baseline for: {url}"
    | BaselineReadFailed                 // "Failed to read baseline response body"
    // scan service
    | BaselineUnavailable                // "Falha ao estabelecer linha de base"
    // file reader
    | FileReadFailed(path: string)       // "Erro ao ler o arquivo: {path}"
    // logger
    | LogOpenFailed(file: string)        // "Failed to open debug log file: {file}"
    | LogWriteFailed(file: string)       // "Failed to write to debug log file: {file}"
    | LogClearFailed(file: string)       // "Failed to clear debug log file: {file}"
    // CSRF token extraction
    | CsrfHeadersInvalid                 // configured headers do not form a header map
    | CsrfFetchFailed                    // "Failed to fetch CSRF token"
    | CsrfReadFailed                     // "Failed to read response body"
    | InvalidExtractionMethod            // "Invalid extraction method"
    | InvalidRegexPattern                // "Invalid regex pattern"
    | TokenNotFoundWithRegex             // "Token not found with regex"
    | InvalidCssSelector                 // "Invalid CSS selector: ..."
    | TokenNotFoundInHtml                // "Token not found in HTML"
    | InvalidJsonResponse                // "Invalid JSON response"
    | JsonPointerNotConfigured           // "JSON pointer not configured"
    | TokenNotFoundInJson                // "Token not found in JSON"
}
