/** A configuration file as the validators see it: where it is and what
    reading and parsing it gave. */
module Files {
  import opened ConfigTree

  /** What opening the file with UTF-8 decoding and parsing it as YAML gave;
      every failure carries the exception's text. An empty document parses as
      `Null`. `ReadError` is any other exception from opening or reading the
      text (a directory, say); `LoadError` is one the loader raises, other
      than a YAML error, after the text was read (such as the `ValueError` of
      a timestamp with no such day). */
  datatype Content =
    | NotFound(detail: string)
    | PermissionDenied(detail: string)
    | NotUtf8(detail: string)
    | BadYaml(detail: string)
    | ReadError(detail: string)
    | LoadError(detail: string)
    | Parsed(doc: Tree)

  /** `path` is the file's path as printed in messages, `name` its last
      component. */
  datatype YamlFile = YamlFile(path: string, name: string, content: Content)
}
