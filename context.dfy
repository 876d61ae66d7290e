/** The records the release engine passes between its stages. Empty text
    stands for an absent (`undefined`) string field. */
module Context {
  import opened Wrappers

  /** `IVersionInfo`: a version, the versioning system it belongs to
      (`semver`, `incremental`, `auto`, `manual`, …) and extra information
      a source may attach. */
  datatype VersionInfo = VersionInfo(version: string, system: string, info: Option<seq<string>>)

  /** The record with every field absent. */
  const NoVersionInfo := VersionInfo("", "", None)

  /** A file operation the engine requests: recording a path in the list of
      edited files (`addEdit`), a regular-expression replacement in a file
      (`replaceInFile`, with the pattern and the replacement text), a whole
      file written (`writeFile`), the JSON document read from `source`
      written to `path` with its `version` property set, or handing a file
      to the editor step (`editFile`). The file system itself is not part of
      this model. */
  datatype FileOp =
    | AddEdit(path: string)
    | ReplaceInFile(path: string, pattern: string, replacement: string)
    | WriteFile(path: string, content: string)
    | WriteVersionJson(path: string, source: string, version: string)
    | EditFile(path: string)
}
