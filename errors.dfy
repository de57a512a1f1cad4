/** Outcomes shared by the loader and the dumper: every failure the two pipelines
    return to their caller, and the Option/Result wrappers used to carry them. */
module Errors {

  datatype Option<+T> = None | Some(value: T)

  /** The error values returned by `Load`, `Dump` and their helpers. */
  datatype Error =
    | MissingParams                                  // a required string argument is empty
    | UnsupportedSourceFormat                        // load source is neither .json nor .csv
    | UnsupportedOutputFormat                        // dump format is neither json nor csv
    | ErrorsReturned(count: nat)                     // the service attached `count` errors to a reply
    | NoSchema                                       // the query reply carries no schema
    | RequestFailed                                  // a call to the service did not return a reply
    | UnknownJobStatus(state: string)                // job state is none of PENDING, RUNNING, DONE
    | ProjectMismatch(returned: string, configured: string)
    | InvalidValue(field: string, raw: string)       // a cell failed to parse as its declared type
    | UnsupportedFieldType(ftype: string, field: string)

  datatype Result<+T> = Ok(value: T) | Err(error: Error)
}
