/** Texts that stand in a character buffer and are ended by a NUL. */
module CStrings {

  /** The text stands in the buffer at `start`, ended by a NUL. */
  ghost predicate StandsAt(buffer: seq<char>, start: nat, text: string) {
    && start + |text| < |buffer| && buffer[start + |text|] == '\0'
    && forall i :: start <= i < start + |text| ==> buffer[i] == text[i - start]
  }

  /** A text without NUL characters, as a C string. */
  ghost predicate CString(buffer: seq<char>, start: nat, text: string) {
    StandsAt(buffer, start, text) && NoNul(text)
  }

  predicate NoNul(text: string) {
    forall i :: 0 <= i < |text| ==> text[i] != '\0'
  }

  /** A part of a C string that is ended by a NUL of its own. */
  lemma PartStands(buffer: seq<char>, start: nat, text: string, from: nat, to: nat, after: seq<char>)
    requires CString(buffer, start, text) && from <= to <= |text|
    requires |after| == |buffer| && after[start + to] == '\0'
    requires forall i :: start + from <= i < start + to ==> after[i] == buffer[i]
    ensures CString(after, start + from, text[from..to])
  {}
}
