/** The descriptors the web framework hands to the generator: applications
    and their data models. They are read-only here. */
module Descriptors {

  datatype Option<+T> = None | Some(value: T)

  /** Text made of ASCII characters only. Model names and plural names are
      restricted to it, because the case rules of the naming functions are
      those of ASCII. */
  type Ascii = s: string | forall i | 0 <= i < |s| :: s[i] < 128 as char

  /** An installed application: its label and its directory on disk. */
  datatype App = App(appLabel: string, path: string)

  /** A data model: its class name and, when one is declared as a plain
      string, its plural display name. A lazily translated or defaulted
      plural is `None`. */
  datatype Model = Model(name: Ascii, verbosePlural: Option<Ascii>)
}
