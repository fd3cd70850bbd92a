/**
 * `renomear_ultimo_arquivo_baixado` (auto_455.py:197-225): in the download
 * folder, give the most recently modified file (other than the shell's
 * `desktop.ini`) the name `<base><extension>`, first deleting whatever
 * already carries that name.
 *
 * The folder is a map from file name to modification time; the order in
 * which `os.listdir` returns the names is a parameter, since `max` keeps the
 * first of several files with the same time.
 */
module DownloadFolder {
  import opened Wrappers
  import opened PyText

  /** `f.lower() == "desktop.ini"`: the Windows shell's folder settings file, never a download. */
  predicate IsShellArtifact(name: string) {
    Lower(name) == "desktop.ini"
  }

  /** The list comprehension: the listed names that are not the shell artifact, in listing order. */
  function Candidates(listing: seq<string>): (c: seq<string>)
    ensures |c| <= |listing|
    ensures forall f :: f in c <==> f in listing && !IsShellArtifact(f)
  {
    if listing == [] then []
    else
      var x := listing[|listing| - 1];
      Candidates(listing[..|listing| - 1]) + (if IsShellArtifact(x) then [] else [x])
  }

  /** The comprehension keeps listing order: the candidates of a prefix of the listing are a prefix of its candidates. */
  lemma {:induction false} CandidatesKeepOrder(listing: seq<string>, k: nat)
    requires k <= |listing|
    ensures Candidates(listing[..k]) <= Candidates(listing)
    decreases |listing|
  {
    if k < |listing| {
      var init := listing[..|listing| - 1];
      assert init[..k] == listing[..k];
      CandidatesKeepOrder(init, k);
    } else {
      assert listing[..k] == listing;
    }
  }

  /**
   * `max(arquivos, key=os.path.getmtime)`: the position of the newest file,
   * the first one when several share the newest time (`max` replaces its
   * pick only on a strictly larger key).
   */
  function NewestIndex(c: seq<string>, mtime: map<string, int>): (i: nat)
    requires c != []
    requires forall f :: f in c ==> f in mtime
    ensures i < |c|
    ensures forall j :: 0 <= j < |c| ==> mtime[c[j]] <= mtime[c[i]]
    ensures forall j :: 0 <= j < i ==> mtime[c[j]] < mtime[c[i]]
  {
    if |c| == 1 then 0
    else
      var k := NewestIndex(c[..|c| - 1], mtime);
      assert forall j :: 0 <= j < |c| - 1 ==> c[..|c| - 1][j] == c[j];
      if mtime[c[|c| - 1]] > mtime[c[k]] then |c| - 1 else k
  }

  /** The index of the last `.` in `p`. */
  function LastDot(p: string): (r: Option<nat>)
    ensures r.Some? ==> r.value < |p| && p[r.value] == '.' && '.' !in p[r.value + 1..]
    ensures r.None? ==> '.' !in p
  {
    if p == [] then None
    else if p[|p| - 1] == '.' then Some(|p| - 1)
    else
      var r := LastDot(p[..|p| - 1]);
      assert p == p[..|p| - 1] + [p[|p| - 1]];
      r
  }

  predicate AllDots(s: string) {
    forall k :: 0 <= k < |s| ==> s[k] == '.'
  }

  /**
   * `os.path.splitext` of a file name without separators: the extension runs
   * from the last dot to the end, except that a name whose characters before
   * that dot are all dots (`.bashrc`, `..`) has no extension.
   */
  function SplitExt(p: string): (r: (string, string))
    ensures r.0 + r.1 == p
    ensures r.1 == [] || (r.1[0] == '.' && '.' !in r.1[1..])
    ensures r.1 != [] <==> exists i, j :: 0 <= i < j < |p| && p[i] != '.' && p[j] == '.'
  {
    match LastDot(p)
    case None => (p, [])
    case Some(d) =>
      if AllDots(p[..d]) then
        assert forall j :: d < j < |p| ==> p[j] == p[d + 1..][j - d - 1];
        assert forall i :: 0 <= i < d ==> p[..d][i] == p[i];
        (p, [])
      else
        var i :| 0 <= i < d && p[..d][i] != '.';
        assert p[i] != '.';
        assert p[d..][1..] == p[d + 1..];
        (p[..d], p[d..])
  }

  /** The extension `splitext` gives. */
  function Ext(name: string): string {
    SplitExt(name).1
  }

  /** `os.listdir` names every entry of the folder, and nothing else. */
  ghost predicate Lists(listing: seq<string>, files: map<string, int>) {
    forall f :: f in listing <==> f in files
  }

  /** The file `max` picks, when there are candidates. */
  function Chosen(listing: seq<string>, files: map<string, int>): (n: Option<string>)
    requires forall f :: f in listing ==> f in files
    ensures n.None? <==> forall f :: f in listing ==> IsShellArtifact(f)
    ensures n.Some? ==> n.value in listing && !IsShellArtifact(n.value)
    ensures n.Some? ==> forall f :: f in listing && !IsShellArtifact(f) ==> files[f] <= files[n.value]
    ensures n.Some? ==> forall k :: 0 <= k < |listing| && !IsShellArtifact(listing[k]) && files[listing[k]] == files[n.value] ==>
                          n.value in listing[..k + 1]
  {
    var c := Candidates(listing);
    assert forall f :: f in listing && !IsShellArtifact(f) ==> f in c;
    if c == [] then None
    else
      var n := c[NewestIndex(c, files)];
      assert n in c;
      NewestComesFirst(listing, files);
      assert forall k :: 0 <= k < |listing| && !IsShellArtifact(listing[k]) && files[listing[k]] == files[n] ==>
               n in listing[..k + 1];
      Some(n)
  }

  /**
   * `max` keeps the first of several newest files: every candidate as new as
   * the chosen one is listed at or after it.
   */
  lemma NewestComesFirst(listing: seq<string>, files: map<string, int>)
    requires forall f :: f in listing ==> f in files
    requires Candidates(listing) != []
    ensures var c := Candidates(listing);
            var n := c[NewestIndex(c, files)];
            forall k :: 0 <= k < |listing| && !IsShellArtifact(listing[k]) && files[listing[k]] >= files[n] ==>
              n in listing[..k + 1]
  {
    var c := Candidates(listing);
    var i := NewestIndex(c, files);
    forall k | 0 <= k < |listing| && !IsShellArtifact(listing[k]) && files[listing[k]] >= files[c[i]]
      ensures c[i] in listing[..k + 1]
    {
      var p := CandidateAt(listing, k);
      assert i <= p;
      assert Candidates(listing[..k + 1])[i] == c[i];
    }
  }

  /** A listed candidate at position `k` is candidate number `p`, and the candidates up to it are those of the listing up to `k`. */
  lemma CandidateAt(listing: seq<string>, k: nat) returns (p: nat)
    requires k < |listing| && !IsShellArtifact(listing[k])
    ensures p < |Candidates(listing)| && Candidates(listing)[p] == listing[k]
    ensures Candidates(listing[..k + 1]) == Candidates(listing)[..p + 1]
  {
    assert listing[..k + 1] == listing[..k] + [listing[k]];
    CandidatesSnoc(listing[..k], listing[k]);
    CandidatesKeepOrder(listing, k + 1);
    p := |Candidates(listing[..k + 1])| - 1;
  }

  /** The candidates of a listing with one more name at the end. */
  lemma CandidatesSnoc(listing: seq<string>, x: string)
    ensures Candidates(listing + [x]) == Candidates(listing) + (if IsShellArtifact(x) then [] else [x])
  {
    assert (listing + [x])[..|listing|] == listing;
  }

  /** The folder after the call: what `os.remove` and then `os.rename` leave behind. */
  function AfterRename(files: map<string, int>, listing: seq<string>, newBase: string): map<string, int>
    requires forall f :: f in listing ==> f in files
  {
    match Chosen(listing, files)
    case None => files
    case Some(n) =>
      var target := newBase + Ext(n);
      var removed := files - {target};
      if n in removed then (removed - {n})[target := files[n]] else removed
  }

  /** With nothing but the artifact (or nothing at all) listed, the folder is left as it was. */
  lemma NoCandidatesNoChange(files: map<string, int>, listing: seq<string>, newBase: string)
    requires Lists(listing, files)
    requires forall f :: f in files ==> IsShellArtifact(f)
    ensures AfterRename(files, listing, newBase) == files
  {
  }

  /**
   * The usual case, where the newest file does not already carry the target
   * name: afterwards the target exists with that file's time (an older file
   * of the target name is replaced), the chosen name is gone, and every
   * other file is as it was.
   */
  lemma RenameMovesNewest(files: map<string, int>, listing: seq<string>, newBase: string)
    requires Lists(listing, files)
    requires Chosen(listing, files).Some?
    requires var n := Chosen(listing, files).value; n != newBase + Ext(n)
    ensures var n := Chosen(listing, files).value;
            var target := newBase + Ext(n);
            var after := AfterRename(files, listing, newBase);
            && target in after && after[target] == files[n]
            && n !in after
            && after.Keys == files.Keys - {n} + {target}
            && (forall f :: f in files && f != n && f != target ==> f in after && after[f] == files[f])
  {
    var n := Chosen(listing, files).value;
    var target := newBase + Ext(n);
    var removed := files - {target};
    assert n in removed;
    assert AfterRename(files, listing, newBase) == (removed - {n})[target := files[n]];
  }

  /**
   * The newest file already carries the target name: `os.remove` deletes it,
   * the `os.rename` that follows fails and the error is swallowed, so the
   * folder loses that file.
   */
  lemma RenameOntoItselfDeletes(files: map<string, int>, listing: seq<string>, newBase: string)
    requires Lists(listing, files)
    requires Chosen(listing, files).Some?
    requires var n := Chosen(listing, files).value; n == newBase + Ext(n)
    ensures AfterRename(files, listing, newBase) == files - {Chosen(listing, files).value}
  {
  }

  /** A file strictly newer than every other candidate is the one `max` picks, whatever the listing order. */
  lemma StrictlyNewestIsChosen(files: map<string, int>, listing: seq<string>, n: string)
    requires Lists(listing, files)
    requires n in files && !IsShellArtifact(n)
    requires forall f :: f in files && f != n && !IsShellArtifact(f) ==> files[f] < files[n]
    ensures Chosen(listing, files) == Some(n)
  {
  }

  /**
   * Two downloads in a row renamed to the same base (the second file newer
   * than everything before it, with the same extension as the first): the
   * target ends up holding the second file, and neither download is left
   * under its own name.
   */
  lemma RenameTwiceKeepsSecond(files: map<string, int>, listing1: seq<string>, newBase: string,
                               second: string, time: int, listing2: seq<string>)
    requires Lists(listing1, files)
    requires Chosen(listing1, files).Some?
    requires var first := Chosen(listing1, files).value;
             first != newBase + Ext(first) && Ext(second) == Ext(first)
    requires var after1 := AfterRename(files, listing1, newBase);
             && second !in after1 && !IsShellArtifact(second)
             && (forall f :: f in after1 ==> after1[f] < time)
             && Lists(listing2, after1[second := time])
    ensures var first := Chosen(listing1, files).value;
            var target := newBase + Ext(first);
            var after2 := AfterRename(AfterRename(files, listing1, newBase)[second := time], listing2, newBase);
            && target in after2 && after2[target] == time
            && second !in after2 && first !in after2
  {
    var first := Chosen(listing1, files).value;
    var target := newBase + Ext(first);
    var after1 := AfterRename(files, listing1, newBase);
    RenameMovesNewest(files, listing1, newBase);
    var files2 := after1[second := time];
    StrictlyNewestIsChosen(files2, listing2, second);
    assert second != target;
    RenameMovesNewest(files2, listing2, newBase);
  }

  /** How the call ends. */
  datatype RenameOutcome =
    | NoCandidates                               // "Nenhum arquivo encontrado": nothing is touched
    | Renamed(from: string, to: string)
    | RenameFailed(from: string, to: string)     // the `os.rename` error, caught and logged

  /** The download folder, with the two file-system calls the rename makes. */
  class Folder {
    var files: map<string, int>

    constructor (contents: map<string, int>)
      ensures files == contents
    {
      files := contents;
    }

    /** `os.remove(name)`. */
    method Remove(name: string)
      requires name in files
      modifies this
      ensures files == old(files) - {name}
    {
      files := files - {name};
    }

    /**
     * `os.rename(src, dst)` on Windows: it fails when `src` is missing or
     * `dst` exists; otherwise the file keeps its time under the new name.
     */
    method Rename(src: string, dst: string) returns (ok: bool)
      modifies this
      ensures ok <==> src in old(files) && dst !in old(files)
      ensures ok ==> files == (old(files) - {src})[dst := old(files)[src]]
      ensures !ok ==> files == old(files)
    {
      if src in files && dst !in files {
        files := (files - {src})[dst := files[src]];
        ok := true;
      } else {
        ok := false;
      }
    }

    /** `renomear_ultimo_arquivo_baixado(pasta, newBase)`, with `listing` the names `os.listdir` returns. */
    method RenameNewest(listing: seq<string>, newBase: string) returns (o: RenameOutcome)
      requires Lists(listing, files)
      modifies this
      ensures files == AfterRename(old(files), listing, newBase)
      ensures o.NoCandidates? <==> Chosen(listing, old(files)).None?
      ensures !o.NoCandidates? ==> o.from == Chosen(listing, old(files)).value && o.to == newBase + Ext(o.from)
      ensures o.RenameFailed? <==> !o.NoCandidates? && o.from == o.to
    {
      var arquivos := Candidates(listing);
      if arquivos == [] {
        return NoCandidates;
      }
      var newest := arquivos[NewestIndex(arquivos, files)];
      assert Chosen(listing, files) == Some(newest);
      var target := newBase + Ext(newest);
      if target in files {
        Remove(target);
      }
      var ok := Rename(newest, target);
      if ok {
        o := Renamed(newest, target);
      } else {
        o := RenameFailed(newest, target);
      }
    }
  }
}
