/** Values shared by every part of the action: optional values, and the fatal
    conditions that end a run with exit status 1. */
module Outcomes {

  datatype Option<+T> = None | Some(value: T)

  /** Every condition under which the action prints an `error:` diagnostic and
      exits with status 1. */
  datatype Failure =
    | MissingRegistryUrl   // the registry-url input is empty
    | ChartNotFound        // the chart path does not exist
    | MissingCredentials   // no access token, and username or password is empty
    | NotAChart            // the chart path is neither a directory nor a .tgz name
    | PackageFailed        // `helm package` exited non-zero
    | NoArchive            // packaging left no archive to push
    | InvalidRegistryUrl   // the registry URL has no network location
    | LoginFailed          // `helm registry login` exited non-zero
    | PushFailed           // `helm push` exited non-zero

  /** The result of a step that either yields a value or ends the run. */
  datatype Result<+T> = Ok(value: T) | Fail(why: Failure)
}
