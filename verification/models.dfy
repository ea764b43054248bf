/** The records the assembler reads, with the Go field names, and the
    failures its external steps report. */
module Models {

  /** The local manifest `api.yml` of an API repository (yaml keys `name`,
      `version`, `api`). `API` is the identifier the rest of the run uses. */
  datatype APIInfo = APIInfo(Name: string, Version: string, API: string)

  /** The registry record of a published API (yaml keys `name`, `api`,
      `link`, `version`, `date`, `type`, `authors`). */
  datatype APIYaml = APIYaml(
    Name: string,
    API: string,
    Link: string,
    Version: string,
    Date: string,
    Type: string,
    Authors: seq<string>)

  /** Go's zero value `APIYaml{}`. */
  const ZeroAPIYaml := APIYaml("", "", "", "", "", "", [])

  /** Why an external step failed. */
  datatype Failure =
    | RequestFailed(cause: string)   // the HTTP round trip itself failed
    | BadStatus(code: int)           // the registry answered with a status other than 200
    | ReadFailed(cause: string)      // reading a file or a response body failed
    | DecodeFailed(cause: string)    // the YAML did not decode into the record
    | CloneFailed(cause: string)     // `git clone` exited with an error
    | WriteFailed(cause: string)     // creating a directory or writing a file failed
}
