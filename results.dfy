/** Option and Result values, and the exceptions that the modelled code lets escape. */
module Results {

  datatype Option<T> = None | Some(value: T)

  /** Every exception the scheduling code can raise, one constructor per cause. */
  datatype Error =
    | MalformedDate  // strptime rejects a dd/mm/yyyy field (ValueError)
    | MalformedTime  // strptime rejects an HH:MM field (ValueError)
    | DateOverflow   // date + timedelta(days=1) past 31/12/9999 (OverflowError)
    | GatewayError   // an execute() call on the calendar service fails (HttpError)
    | LoginError     // dang_nhap_google cannot obtain credentials
    | ReadError      // doc_tkb cannot read the uploaded spreadsheet

  datatype Result<T> = Ok(value: T) | Err(error: Error)
}
