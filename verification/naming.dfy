/**
 The names the manager derives from an experiment name: the image tag
 (lower-cased, `_` turned into `-`) and the container name (only `_` turned
 into `-`, then `-container` appended).
 */
module Naming {

  import opened Text

  /** `name.lower().replace("_", "-")`. */
  function ImageTag(name: string): (tag: string)
    ensures |tag| == |name|
    ensures forall i | 0 <= i < |name| :: tag[i] == (if name[i] == '_' then '-' else LowerChar(name[i]))
    ensures '_' !in tag
    ensures NoUpper(tag)
  {
    Replace(Lower(name), '_', '-')
  }

  /** `name.replace("_", "-") + "-container"`; the case is kept. */
  function ContainerName(name: string): (cname: string)
    ensures '_' !in cname
    ensures |cname| == |name| + 10
    ensures forall i | 0 <= i < |name| :: cname[i] == (if name[i] == '_' then '-' else name[i])
    ensures cname[|name|..] == "-container"
  {
    Replace(name, '_', '-') + "-container"
  }

  /** Normalising a tag again changes nothing. */
  lemma ImageTagIdempotent(name: string)
    ensures ImageTag(ImageTag(name)) == ImageTag(name)
  {
    var t := ImageTag(name);
    assert Lower(t) == t;
  }

  /** The tags are exactly the strings with no `_` and no upper-case letter. */
  lemma ImageTagFixedPoints(s: string)
    ensures ImageTag(s) == s <==> '_' !in s && NoUpper(s)
  {
    if '_' !in s && NoUpper(s) {
      assert Lower(s) == s;
    }
  }

  /** The container name is the image tag plus `-container` exactly when the
      experiment name has no upper-case letter; otherwise they differ in case. */
  lemma ContainerNameMatchesTag(name: string)
    ensures ContainerName(name) == ImageTag(name) + "-container" <==> NoUpper(name)
  {
    if NoUpper(name) {
      assert Lower(name) == name;
    } else {
      var i :| 0 <= i < |name| && IsUpper(name[i]);
      assert ContainerName(name)[i] == name[i];
      assert (ImageTag(name) + "-container")[i] == ImageTag(name)[i];
    }
  }

  /** Two experiment names collide on a container name only if they differ
      just by exchanging `_` and `-`. */
  lemma ContainerNameCollisions(a: string, b: string)
    requires ContainerName(a) == ContainerName(b)
    ensures |a| == |b|
    ensures forall i | 0 <= i < |a| :: a[i] == b[i] || (a[i] in {'_', '-'} && b[i] in {'_', '-'})
  {
    assert |a| == |b|;
    forall i | 0 <= i < |a| ensures a[i] == b[i] || (a[i] in {'_', '-'} && b[i] in {'_', '-'}) {
      assert ContainerName(a)[i] == ContainerName(b)[i];
    }
  }
}
