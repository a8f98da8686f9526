/** The two strings the web fallback builds before it drives the browser
    (nessus.py:138-165): the folder part of the scan-folder URL, and the
    comma-separated list typed into the custom-targets field. */
module Shaping {

  /** Python's str.lower on one character, for ASCII text. */
  function LowerChar(c: char): (r: char)
    ensures 'A' <= c <= 'Z' ==> r as int == c as int + 32
    ensures !('A' <= c <= 'Z') ==> r == c
    ensures !('A' <= r <= 'Z')
  {
    if 'A' <= c <= 'Z' then (c as int + 32) as char else c
  }

  /** str.lower on a whole string. */
  function Lower(s: string): (r: string)
    ensures |r| == |s|
    ensures forall i :: 0 <= i < |s| ==> r[i] == LowerChar(s[i])
  {
    if |s| == 0 then [] else [LowerChar(s[0])] + Lower(s[1..])
  }

  /** str.replace with a one-character pattern: every occurrence of `from`
      becomes `to`, everything else stays. */
  function ReplaceChar(s: string, from: char, to: char): (r: string)
    ensures |r| == |s|
    ensures forall i :: 0 <= i < |s| ==> r[i] == if s[i] == from then to else s[i]
  {
    if |s| == 0 then []
    else [if s[0] == from then to else s[0]] + ReplaceChar(s[1..], from, to)
  }

  /** folder_name.lower().replace(' ', '-') (nessus.py:139). The slug has the
      length of the folder name, a hyphen wherever the name has a space (so
      several spaces give several hyphens) or already had one, the lower-cased
      character everywhere else, and neither spaces nor capitals. */
  function FolderSlug(folderName: string): (r: string)
    ensures |r| == |folderName|
    ensures forall i :: 0 <= i < |folderName| && folderName[i] == ' ' ==> r[i] == '-'
    ensures forall i :: 0 <= i < |folderName| && folderName[i] != ' ' ==> r[i] == LowerChar(folderName[i])
    ensures forall i :: 0 <= i < |folderName| ==> (r[i] == '-' <==> folderName[i] == ' ' || folderName[i] == '-')
    ensures ' ' !in r
    ensures forall i :: 0 <= i < |r| ==> !('A' <= r[i] <= 'Z')
  {
    ReplaceChar(Lower(folderName), ' ', '-')
  }

  /** Slugging a slug changes nothing. */
  lemma FolderSlugIdempotent(folderName: string)
    ensures FolderSlug(FolderSlug(folderName)) == FolderSlug(folderName)
  {
    var s := FolderSlug(folderName);
    assert forall i :: 0 <= i < |s| ==> FolderSlug(s)[i] == s[i];
  }

  lemma FolderSlugOfAllScans()
    ensures FolderSlug("All Scans") == "all-scans"
  {
    var name, slug := "All Scans", "all-scans";
    assert LowerChar('A') == 'a' && LowerChar('S') == 's';
    forall i | 0 <= i < |name|
      ensures FolderSlug(name)[i] == slug[i]
    {
      assert i in {0, 1, 2, 3, 4, 5, 6, 7, 8};
    }
  }

  /** Each of several consecutive spaces becomes its own hyphen: a run of n
      spaces between two parts of a name ("My   Scans" gives "my---scans")
      turns into a run of n hyphens, and the parts are slugged on their own. */
  lemma FolderSlugOfRepeatedSpaces(before: string, n: nat, after: string)
    ensures FolderSlug(before + seq(n, _ => ' ') + after) ==
      FolderSlug(before) + seq(n, _ => '-') + FolderSlug(after)
  {
    var name := before + seq(n, _ => ' ') + after;
    var slug := FolderSlug(before) + seq(n, _ => '-') + FolderSlug(after);
    assert |FolderSlug(name)| == |slug|;
    forall i | 0 <= i < |name|
      ensures FolderSlug(name)[i] == slug[i]
    {
      if i < |before| {
        assert name[i] == before[i];
      } else if i < |before| + n {
        assert name[i] == ' ';
      } else {
        assert name[i] == after[i - |before| - n];
      }
    }
  }

  /** The targets joined by ", " — what the custom-targets field receives. */
  function JoinTargets(targets: seq<string>): string
  {
    if |targets| == 0 then ""
    else if |targets| == 1 then targets[0]
    else JoinTargets(targets[..|targets| - 1]) + ", " + targets[|targets| - 1]
  }

  /** The loop's accumulator: every target followed by ", ". */
  function Terminated(targets: seq<string>): string
  {
    if |targets| == 0 then ""
    else Terminated(targets[..|targets| - 1]) + targets[|targets| - 1] + ", "
  }

  /** Total length of the targets. */
  function TotalLength(targets: seq<string>): nat
  {
    if |targets| == 0 then 0 else TotalLength(targets[..|targets| - 1]) + |targets[|targets| - 1]|
  }

  /** The accumulator is the joined list plus exactly one trailing separator,
      which is what the truncation at nessus.py:162 removes. */
  lemma {:induction false} TerminatedIsJoinedPlusSeparator(targets: seq<string>)
    requires |targets| > 0
    ensures Terminated(targets) == JoinTargets(targets) + ", "
  {
    var n := |targets|;
    if n > 1 {
      TerminatedIsJoinedPlusSeparator(targets[..n - 1]);
    }
  }

  /** The joined string is as long as all targets plus one two-character
      separator between each neighbouring pair. */
  lemma {:induction false} JoinTargetsLength(targets: seq<string>)
    requires |targets| > 0
    ensures |JoinTargets(targets)| == TotalLength(targets) + 2 * (|targets| - 1)
  {
    var n := |targets|;
    if n > 1 {
      JoinTargetsLength(targets[..n - 1]);
      assert targets[..n - 1][..n - 2] == targets[..n - 2];
    }
  }

  /** Joining two non-empty lists is joining each and putting one separator
      between them: a separator appears only between targets. */
  lemma {:induction false} JoinTargetsAppend(front: seq<string>, back: seq<string>)
    requires |front| > 0 && |back| > 0
    ensures JoinTargets(front + back) == JoinTargets(front) + ", " + JoinTargets(back)
    decreases |back|
  {
    var all := front + back;
    var m := |back|;
    if m == 1 {
      assert all[..|all| - 1] == front;
    } else {
      assert all[..|all| - 1] == front + back[..m - 1];
      JoinTargetsAppend(front, back[..m - 1]);
    }
  }

  /** The string ends with the last target: no separator is left over. */
  lemma JoinTargetsEndsWithLast(targets: seq<string>)
    requires |targets| > 0
    ensures var s := JoinTargets(targets); var t := targets[|targets| - 1];
      |t| <= |s| && s[|s| - |t|..] == t
  {
  }

  lemma JoinTargetsExample()
    ensures JoinTargets(["10.0.0.1", "10.0.0.2"]) == "10.0.0.1, 10.0.0.2"
  {
    assert ["10.0.0.1", "10.0.0.2"][..1] == ["10.0.0.1"];
  }

  /** The loop at nessus.py:159-162: append each target and ", ", then drop
      the last two characters (Python's [:-2], which yields "" for a string
      shorter than two). */
  method BuildTargetString(targets: seq<string>) returns (targetStr: string)
    ensures targetStr == JoinTargets(targets)
  {
    targetStr := "";
    for i := 0 to |targets|
      invariant targetStr == Terminated(targets[..i])
    {
      assert targets[..i + 1][..i] == targets[..i];
      targetStr := targetStr + targets[i] + ", ";
    }
    assert targets[..|targets|] == targets;
    if |targets| > 0 {
      TerminatedIsJoinedPlusSeparator(targets);
    }
    targetStr := if |targetStr| >= 2 then targetStr[..|targetStr| - 2] else "";
  }
}
