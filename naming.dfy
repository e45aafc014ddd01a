/**
  The file name an action artifact is saved under: the artifact's name with
  `.zip` appended, unless `name.lower().endswith('.zip')` already holds.
*/
module Naming {

  /** Lower-casing of one character (ASCII letters only; see README). */
  function LowerChar(c: char): char {
    if 'A' <= c <= 'Z' then (c as int + 32) as char else c
  }

  /** `str.lower()`, character by character. */
  function Lower(s: string): (r: string)
    ensures |r| == |s|
  {
    seq(|s|, i requires 0 <= i < |s| => LowerChar(s[i]))
  }

  /** `name.lower().endswith('.zip')`. */
  predicate EndsWithZip(name: string) {
    var low := Lower(name);
    |low| >= 4 && low[|low| - 4..] == ".zip"
  }

  /** The saved file name of an artifact. */
  function ArtifactFileName(name: string): (saved: string)
    ensures EndsWithZip(saved)
    ensures EndsWithZip(name) ==> saved == name
    ensures |saved| >= |name| && saved[..|name|] == name
    ensures saved == name || saved == name + ".zip"
  {
    if EndsWithZip(name) then name
    else
      var saved := name + ".zip";
      assert Lower(saved)[|saved| - 4..] == Lower(".zip");
      saved
  }

  /** Naming an already named artifact changes nothing. */
  lemma ArtifactFileNameIdempotent(name: string)
    ensures ArtifactFileName(ArtifactFileName(name)) == ArtifactFileName(name)
  {
  }

  /** A name ending in `.ZIP` in any mix of cases is kept as it is. */
  lemma UpperCaseZipKept()
    ensures ArtifactFileName("build.ZIP") == "build.ZIP"
    ensures ArtifactFileName("build") == "build.zip"
  {
    assert Lower("build.ZIP")[5..] == ".zip";
    assert Lower("build") == "build";
  }
}
