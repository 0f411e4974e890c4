/** The state record of the editing screen (types.ts). */
module Types {
  import opened Wrappers

  /** One editing session: the uploaded image and the edited image as data URIs, the
      instruction text, whether a request is in flight, and the last error message. */
  datatype ImageState = ImageState(
    original: Option<string>,
    edited: Option<string>,
    prompt: string,
    isProcessing: bool,
    error: Option<string>)
}
