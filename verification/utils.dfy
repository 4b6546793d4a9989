/** The pure decisions inside the file-system and download plumbing of
    src/utils.ts: which discovered test files are kept (`getTestFiles`) and
    which release asset is downloaded for the running platform
    (`getAd4mHostBinary`). Globbing, `fetch`, `wget` and `chmod` are left to
    the caller: the discovered paths, the release's asset list and whether the
    binary already exists are inputs. */
module Utils {
  import opened Wrappers
  import opened Strings

  const NodeModules: string := "node_modules"

  /** The `node_modules` filter `getTestFiles` applies to the globbed test files. */
  function WithoutNodeModules(paths: seq<string>): (kept: seq<string>)
    ensures |kept| <= |paths|
    ensures forall p :: p in kept ==> p in paths && !Contains(p, NodeModules)
    ensures forall p :: p in paths && !Contains(p, NodeModules) ==> p in kept
  {
    if |paths| == 0 then []
    else if Contains(paths[0], NodeModules) then WithoutNodeModules(paths[1..])
    else [paths[0]] + WithoutNodeModules(paths[1..])
  }

  /** The filter keeps discovery order: filtering a concatenation is the
      concatenation of the filtered parts. */
  lemma {:induction false} WithoutNodeModulesAppend(a: seq<string>, b: seq<string>)
    ensures WithoutNodeModules(a + b) == WithoutNodeModules(a) + WithoutNodeModules(b)
  {
    if |a| > 0 {
      assert (a + b)[0] == a[0];
      assert (a + b)[1..] == a[1..] + b;
      WithoutNodeModulesAppend(a[1..], b);
    } else {
      assert a + b == b;
    }
  }

  /** A release asset as the GitHub releases API lists it. */
  datatype Asset = Asset(name: string, downloadUrl: string)

  /** The word the asset name must contain for `process.platform`. */
  function PlatformKeyword(platform: string): string {
    if platform == "darwin" then "macos"
    else if platform == "win32" then "windows"
    else "linux"
  }

  /** `assets.find(e => e.name.includes(keyword))`, as the index found. */
  function FindAsset(assets: seq<Asset>, keyword: string): (r: Option<nat>)
    ensures r.Some? ==> r.value < |assets| && Contains(assets[r.value].name, keyword)
    ensures r.Some? ==> forall j :: 0 <= j < r.value ==> !Contains(assets[j].name, keyword)
    ensures r.None? ==> forall j :: 0 <= j < |assets| ==> !Contains(assets[j].name, keyword)
  {
    if |assets| == 0 then None
    else if Contains(assets[0].name, keyword) then Some(0)
    else
      match FindAsset(assets[1..], keyword)
      case Some(i) => Some(i + 1)
      case None => None
  }

  /** What `getAd4mHostBinary` does with the binary. */
  datatype BinaryAction =
    | UseExisting                      // the binary is already in place; nothing is downloaded
    | Download(url: string, dest: string)

  /** `find` returned `undefined` and reading `browser_download_url` threw. */
  datatype BinaryFailure = NoAssetForPlatform(keyword: string)

  /** The download decision: nothing when the binary exists, otherwise the
      first asset whose name carries the platform's keyword, saved to `dest`. */
  function EnsureBinary(platform: string, binaryExists: bool, assets: seq<Asset>, dest: string)
    : (r: Result<BinaryAction, BinaryFailure>)
    ensures binaryExists <==> r == Success(UseExisting)
    ensures r.Success? && r.value.Download? ==>
              exists i :: 0 <= i < |assets| && r.value.url == assets[i].downloadUrl
                       && Contains(assets[i].name, PlatformKeyword(platform))
                       && (forall j :: 0 <= j < i ==> !Contains(assets[j].name, PlatformKeyword(platform)))
    ensures r.Failure? <==> !binaryExists && forall j :: 0 <= j < |assets| ==> !Contains(assets[j].name, PlatformKeyword(platform))
  {
    if binaryExists then Success(UseExisting)
    else
      match FindAsset(assets, PlatformKeyword(platform))
      case Some(i) => Success(Download(assets[i].downloadUrl, dest))
      case None => Failure(NoAssetForPlatform(PlatformKeyword(platform)))
  }

  /** `darwin` takes the macOS build, `win32` the Windows build, and every
      other platform the Linux build. */
  lemma PlatformChoice(platform: string)
    ensures platform == "darwin" ==> PlatformKeyword(platform) == "macos"
    ensures platform == "win32" ==> PlatformKeyword(platform) == "windows"
    ensures platform != "darwin" && platform != "win32" ==> PlatformKeyword(platform) == "linux"
  {
  }
}
