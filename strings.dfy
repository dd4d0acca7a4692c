/** Text helpers shared by the configuration and status-message code. */
module Strings {
  /** s begins with prefix. */
  predicate HasPrefix(s: string, prefix: string) {
    |prefix| <= |s| && s[..|prefix|] == prefix
  }
}
