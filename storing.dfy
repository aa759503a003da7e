/**
 * The save-destination rule: a destination is written only when its last
 * four characters are `.txt`; any other non-empty destination is reported
 * as a wrong extension.
 */
module Storing {
  import opened Wrappers

  /** What happens with the `--store` destination. `OpenTxt` opens the file
      for writing, which truncates it; no text is written into it. */
  datatype SaveAction = NoSave | OpenTxt(path: string) | ExtensionError

  /** Python's `s[-4:]`: the last four characters, or all of a shorter string. */
  function LastFour(s: string): (t: string)
    ensures |t| == if |s| >= 4 then 4 else |s|
    ensures forall k :: 0 <= k < |t| ==> t[k] == s[|s| - |t| + k]
  {
    if |s| >= 4 then s[|s| - 4..] else s
  }

  /** No or an empty destination means nothing is saved; otherwise the
      destination is opened exactly when it ends in `.txt`. */
  function Save(store: Option<string>): (a: SaveAction)
    ensures a.NoSave? <==> store.None? || store.value == ""
    ensures a.OpenTxt? <==>
      store.Some? && |store.value| >= 4 && store.value[|store.value| - 4..] == ".txt"
    ensures a.OpenTxt? ==> a.path == store.value
  {
    if store.None? || store.value == "" then NoSave
    else if LastFour(store.value) == ".txt" then OpenTxt(store.value)
    else ExtensionError
  }

  /** `result.txt` is opened; `result.png`, `.tx` and `txt` are rejected. */
  lemma SaveExamples()
    ensures Save(Some("result.txt")) == OpenTxt("result.txt")
    ensures Save(Some("result.png")) == ExtensionError
    ensures Save(Some(".tx")) == ExtensionError
    ensures Save(Some("txt")) == ExtensionError
  {
    assert "result.txt"[6..] == ".txt";
    assert "result.png"[6..] != ".txt" by { assert "result.png"[6..][1] == 'p'; }
  }
}
