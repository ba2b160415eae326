/** Joining asset paths onto the deployment base (src/lib/utils.js).
    `env` is the build's `BASE_URL` setting: `None` when it is undefined. */
module AssetPaths {
  import opened Wrappers

  predicate StartsWithSlash(p: string) { |p| > 0 && p[0] == '/' }

  /** `getBaseUrl()`: the configured base, or "/" when it is undefined or empty. */
  function BaseUrl(env: Option<string>): (b: string)
    ensures b != []
    ensures env.Some? && env.value != [] ==> b == env.value
    ensures env.None? || env.value == [] ==> b == "/"
  {
    match env
    case Some(v) => if v != [] then v else "/"
    case None => "/"
  }

  /** `path.replace(/^\//, '')`: at most one leading slash goes. */
  function StripLeadingSlash(p: string): (r: string)
    ensures StartsWithSlash(p) ==> r == p[1..]
    ensures !StartsWithSlash(p) ==> r == p
  {
    if StartsWithSlash(p) then p[1..] else p
  }

  /** `getAssetPath(path)`: the base, then the path without its first leading slash. */
  function AssetPath(env: Option<string>, path: string): (r: string)
    ensures |r| == |BaseUrl(env)| + |path| - (if StartsWithSlash(path) then 1 else 0)
    ensures r[..|BaseUrl(env)|] == BaseUrl(env)
    ensures !StartsWithSlash(path) ==> r == BaseUrl(env) + path
    ensures StartsWithSlash(path) ==> r[|BaseUrl(env)|..] == path[1..]
  {
    BaseUrl(env) + StripLeadingSlash(path)
  }

  /** `getBaseUrl()` is exactly the prefix `getAssetPath` puts in front of every path. */
  lemma BaseUrlIsAssetPrefix(env: Option<string>, path: string)
    ensures AssetPath(env, path) == BaseUrl(env) + AssetPath(env, path)[|BaseUrl(env)|..]
    ensures AssetPath(env, "") == BaseUrl(env)
  {
  }

  /** A leading slash is normalised away: "/p" and "p" name the same asset. */
  lemma LeadingSlashNormalised(env: Option<string>, p: string)
    requires !StartsWithSlash(p)
    ensures AssetPath(env, "/" + p) == AssetPath(env, p)
  {
    assert ("/" + p)[1..] == p;
  }

  /** Only one slash is removed: "//x" keeps its second slash. */
  lemma OnlyOneSlashRemoved(env: Option<string>, x: string)
    ensures AssetPath(env, "//" + x) == BaseUrl(env) + "/" + x
  {
    assert ("//" + x)[1..] == "/" + x;
  }
}
