/** The optional value the pipeline uses for missing cells, failed parses and skipped files. */
module Wrappers {

  datatype Option<+T> = None | Some(value: T)
}
