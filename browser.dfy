/**
 * The browser values the front-end helper libraries receive: `File`
 * objects and whatever else a caller may pass where a file is expected.
 */
module Browser {
  import opened Base

  /** A `File`: its name, its size in bytes and its MIME type (`file.type`). */
  datatype JsFile = JsFile(name: string, size: nat, mime: string)

  /**
   * A value passed where a file is expected: a `File`, `null` or
   * `undefined` (reading a property of either throws a TypeError), or
   * another object, whose `name` property is a non-empty string or is
   * falsy (absent, empty) and whose `type` is not a MIME string.
   */
  datatype UploadValue =
    | FileValue(file: JsFile)
    | Nullish(kind: string)
    | OtherValue(name: Option<string>)

  /** The TypeError V8 raises when property `prop` of `null` or `undefined` is read. */
  function ReadError(kind: string, prop: string): string {
    "Cannot read properties of " + kind + " (reading '" + prop + "')"
  }
}
