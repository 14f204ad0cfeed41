/** The directory shown in the prompt: the working directory with the user's
    home directory replaced by `~` (get_current_working_directory_home_shortened). */
module Prompt {
  import opened Common

  /** Size of the static buffer the result is written into. */
  const PATH_BUFFER_SIZE: nat := 1024

  /** What `snprintf(temp, 1024, ...)` keeps of `s`: at most 1023 characters. */
  function Clip(s: string): (r: string)
    ensures |r| == Min(|s|, PATH_BUFFER_SIZE - 1)
    ensures IsPrefix(r, s)
  {
    if |s| < PATH_BUFFER_SIZE then s else s[..PATH_BUFFER_SIZE - 1]
  }

  /** `cwd` is what `getcwd` wrote into the 1024-byte buffer (`None` when it failed)
      and `home` is `getenv("HOME")` (`None` when unset). */
  function ShortenHome(cwd: Option<string>, home: Option<string>): (r: Option<string>)
    requires cwd.Some? ==> |cwd.value| < PATH_BUFFER_SIZE
    ensures r.None? <==> cwd.None?
    ensures r.Some? ==> |r.value| < PATH_BUFFER_SIZE
  {
    match cwd
    case None => None
    case Some(dir) =>
      if home.Some? && IsPrefix(home.value, dir) then
        Some(Clip("~" + dir[|home.value|..]))
      else
        Some(dir)
  }

  /** The inverse direction: replacing the leading `~` by the home directory. */
  function ExpandHome(shown: string, home: string): string {
    if |shown| > 0 && shown[0] == '~' then home + shown[1..] else shown
  }

  /** Under the home directory the result is `~` followed by the rest of the path. */
  lemma ShortenUnderHome(dir: string, home: string)
    requires |dir| < PATH_BUFFER_SIZE
    requires IsPrefix(home, dir)
    requires |home| > 0
    ensures ShortenHome(Some(dir), Some(home)) == Some("~" + dir[|home|..])
  {
  }

  /** The home directory itself is shown as exactly `~`. */
  lemma ShortenHomeItself(home: string)
    requires |home| < PATH_BUFFER_SIZE
    ensures ShortenHome(Some(home), Some(home)) == Some("~")
  {
    assert home[|home|..] == [];
  }

  /** With HOME unset, or not a prefix of the directory, the directory is shown unchanged. */
  lemma ShortenOutsideHome(dir: string, home: Option<string>)
    requires |dir| < PATH_BUFFER_SIZE
    requires home.None? || !IsPrefix(home.value, dir)
    ensures ShortenHome(Some(dir), home) == Some(dir)
  {
  }

  /** A failed `getcwd` yields NULL whatever HOME is. */
  lemma ShortenWithoutCwd(home: Option<string>)
    ensures ShortenHome(None, home) == None
  {
  }

  /** The prefix test stops at the length of HOME and knows nothing of `/`:
      HOME `/home/a` shortens `/home/ab` to `~b`. */
  lemma ShortenNoSeparatorBoundary()
    ensures ShortenHome(Some("/home/ab"), Some("/home/a")) == Some("~b")
  {
    assert IsPrefix("/home/a", "/home/ab");
    ShortenUnderHome("/home/ab", "/home/a");
    assert "~" + "/home/ab"[|"/home/a"|..] == "~b";
  }

  /** An empty HOME is a prefix of every directory, so `~` is put in front of the
      whole path (and the last character is lost when the path already fills the buffer). */
  lemma ShortenEmptyHome(dir: string)
    requires |dir| < PATH_BUFFER_SIZE
    ensures ShortenHome(Some(dir), Some("")) == Some(Clip("~" + dir))
    ensures |dir| < PATH_BUFFER_SIZE - 1 ==> ShortenHome(Some(dir), Some("")) == Some("~" + dir)
  {
    assert IsPrefix("", dir);
    assert dir[0..] == dir;
  }

  /** Round trip: expanding the shown directory with the same HOME gives back the
      working directory whenever HOME is set. */
  lemma {:induction false} ExpandShortenRoundTrip(dir: string, home: Option<string>)
    requires |dir| < PATH_BUFFER_SIZE
    requires home.Some? && |home.value| > 0
    requires |dir| == 0 || dir[0] != '~'
    ensures ExpandHome(ShortenHome(Some(dir), home).value, home.value) == dir
  {
    var h := home.value;
    if IsPrefix(h, dir) {
      var shown := "~" + dir[|h|..];
      assert |shown| < PATH_BUFFER_SIZE;
      assert shown[1..] == dir[|h|..];
      assert h + dir[|h|..] == dir[..|h|] + dir[|h|..];
      assert dir[..|h|] + dir[|h|..] == dir;
    }
  }
}
