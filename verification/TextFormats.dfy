/** The text formats that commands and receipts are checked against. Strings are
    sequences of characters; every protocol string is ASCII, because the canonical
    encoder refuses anything else. */
module TextFormats {

  predicate IsLower(c: char) { 'a' <= c <= 'z' }

  predicate IsUpper(c: char) { 'A' <= c <= 'Z' }

  predicate IsDigit(c: char) { '0' <= c <= '9' }

  predicate IsAlnum(c: char) { IsLower(c) || IsUpper(c) || IsDigit(c) }

  predicate IsHex(c: char) { IsDigit(c) || 'a' <= c <= 'f' }

  predicate IsSpace(c: char) { c == ' ' || '\t' <= c <= '\r' || '\U{1C}' <= c <= '\U{1F}' }

  predicate IsAscii(s: string) { forall i :: 0 <= i < |s| ==> s[i] < '\U{80}' }

  /** `s` starts with `prefix`. */
  predicate StartsWith(s: string, prefix: string) { prefix <= s }

  predicate EndsWith(s: string, suffix: string) {
    |suffix| <= |s| && s[|s| - |suffix|..] == suffix
  }

  predicate Contains(s: string, part: string) {
    exists i :: 0 <= i <= |s| && part <= s[i..]
  }

  predicate IsPrincipal(s: string) {
    |s| > 0 && forall i :: 0 <= i < |s| ==> IsAlnum(s[i]) || s[i] in "_.:@/-"
  }

  /** A lower-case letter, then at most 127 lower-case letters, digits or underscores. */
  predicate IsReason(s: string) {
    1 <= |s| <= 128 && IsLower(s[0]) &&
    forall i :: 0 <= i < |s| ==> IsLower(s[i]) || IsDigit(s[i]) || s[i] == '_'
  }

  predicate IsSha(s: string) {
    |s| == 40 && forall i :: 0 <= i < |s| ==> IsHex(s[i])
  }

  /** A canonical lower-case version 4 UUID of the RFC 4122 variant. */
  predicate IsUuid4(s: string) {
    |s| == 36 && s[14] == '4' && s[19] in "89ab" &&
    forall i :: 0 <= i < |s| ==> if i == 8 || i == 13 || i == 18 || i == 23 then s[i] == '-' else IsHex(s[i])
  }

  /** The session prefix followed by the canonical base64url text of 32 bytes: 43 letters,
      the last of which carries two zero bits. */
  predicate IsSession(s: string) {
    |s| == 63 && StartsWith(s, "dm:coord-session:v0:") && s[62] in "AEIMQUYcgkosw048" &&
    forall i :: 20 <= i < |s| ==> IsAlnum(s[i]) || s[i] == '-' || s[i] == '_'
  }

  const RESOURCE_KINDS := ["issue:", "path:", "service:", "project:", "protocol:"]

  predicate IsOfKind(s: string, kind: string) {
    StartsWith(s, kind) && |kind| < |s| && forall i :: |kind| <= i < |s| ==> !IsSpace(s[i])
  }

  predicate IsResource(s: string) {
    |s| <= 256 && IsAscii(s) && exists kind :: kind in RESOURCE_KINDS && IsOfKind(s, kind)
  }

  /** A Git ref name that the repository considers safe. */
  predicate IsBranch(s: string) {
    1 <= |s| <= 255 && IsAscii(s) &&
    (forall i :: 0 <= i < |s| ==> !IsSpace(s[i]) && s[i] !in "~^:?*[\\") &&
    s[0] !in "/." && s[|s| - 1] !in "/." &&
    !Contains(s, "..") && !Contains(s, "@{") && !Contains(s, "//") && !Contains(s, "/.") &&
    !Contains(s, ".lock/") && !EndsWith(s, ".lock")
  }

  predicate IsRepositoryPart(s: string) {
    |s| > 0 && forall i :: 0 <= i < |s| ==> IsAlnum(s[i]) || s[i] in "_.-"
  }

  /** `owner/name`. */
  predicate IsRepository(s: string) {
    exists i :: 0 <= i < |s| && s[i] == '/' && IsRepositoryPart(s[..i]) && IsRepositoryPart(s[i + 1..])
  }

  /** Code-point order, the order in which Python sorts strings. */
  predicate Less(a: string, b: string) {
    b != [] && (a == [] || a[0] < b[0] || (a[0] == b[0] && Less(a[1..], b[1..])))
  }

  /** Ascending without duplicates, between one and 64 resources. */
  predicate AreResources(rs: seq<string>) {
    1 <= |rs| <= 64 && (forall i :: 0 <= i < |rs| ==> IsResource(rs[i])) &&
    forall i :: 0 < i < |rs| ==> Less(rs[i - 1], rs[i])
  }
}
