/** The two kinds of key source the dialog can copy from, reduced to what it reads of them. */
module Entities {
  /** A project: its request (public) URI and its insert (private) URI. */
  datatype Project = Project(requestUri: string, insertUri: string)

  /** An own identity of the web-of-trust plugin: a nickname and its two URIs. */
  datatype OwnIdentity = OwnIdentity(nickname: string, requestUri: string, insertUri: string)
}
