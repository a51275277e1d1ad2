/** Values shared by the uploader, the batch controller and the result view. */
module Types {

  datatype Option<+T> = None | Some(value: T)

  datatype Result<+R, +E> = Success(value: R) | Failure(error: E)

  /** The parts of a browser File the application reads: its display name, its
      MIME type (`file.type`) and its size in bytes. The bytes themselves only
      travel to the extraction service, which is not part of this model. */
  datatype File = File(name: string, mimeType: string, size: nat)

  /** One entry of the result list: a submitted file and the usernames found
      in it (`{ file, usernames }`). */
  datatype ProcessedImageResult = ProcessedImageResult(file: File, usernames: seq<string>)

  /** A value thrown or rejected with: an `Error` object carrying a message,
      or any other value. */
  datatype Thrown = ErrorObject(message: string) | OtherValue

  /** How one extraction call settled: fulfilled with a list of usernames, or
      rejected with a thrown value. */
  datatype Outcome = Resolved(usernames: seq<string>) | Rejected(reason: Thrown)
}
