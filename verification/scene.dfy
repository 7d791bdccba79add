/**
 The scene record the scraper hands back to its caller as a JSON object. Every
 field is optional: a key the scraper never set is `None`. A studio stands for
 `{"name": studio}`, and performers and tags for lists of `{"name": ...}` objects.
 */
module Scene {
  import opened Options

  datatype SceneRecord = SceneRecord(
    title: Option<string>,
    studio: Option<string>,
    performers: Option<seq<string>>,
    tags: Option<seq<string>>,
    url: Option<string>)

  /** The empty object `{}`, returned for unsupported URLs and on any failure. */
  const Empty: SceneRecord := SceneRecord(None, None, None, None, None)

  /** `[p for p in ps if p]`: the non-empty names, in order. */
  function NonEmptyNames(ps: seq<string>): (r: seq<string>)
    ensures |r| <= |ps|
    ensures forall i :: 0 <= i < |r| ==> r[i] != [] && r[i] in ps
    ensures forall p :: p in ps && p != [] ==> p in r
  {
    if ps == [] then []
    else if ps[0] != [] then [ps[0]] + NonEmptyNames(ps[1..])
    else NonEmptyNames(ps[1..])
  }

  /**
   The filter works name by name: filtering a concatenation concatenates the
   filtered parts. With the contract above, which fixes the result for a single
   name, this pins down order and repetitions too.
   */
  lemma {:induction false} NonEmptyNamesConcat(a: seq<string>, b: seq<string>)
    ensures NonEmptyNames(a + b) == NonEmptyNames(a) + NonEmptyNames(b)
    decreases |a|
  {
    if a == [] {
      assert a + b == b;
    } else {
      var ab := a + b;
      assert ab[0] == a[0] && ab[1..] == a[1..] + b;
      NonEmptyNamesConcat(a[1..], b);
      var x, y := NonEmptyNames(a[1..]), NonEmptyNames(b);
      if a[0] != [] {
        assert [a[0]] + (x + y) == ([a[0]] + x) + y;
      }
    }
  }

  /** Non-empty names pass the blank filter unchanged. */
  lemma {:induction false} NonEmptyNamesKeeps(ps: seq<string>)
    requires forall i :: 0 <= i < |ps| ==> ps[i] != []
    ensures NonEmptyNames(ps) == ps
  {
    if ps != [] {
      NonEmptyNamesKeeps(ps[1..]);
      assert ps == [ps[0]] + ps[1..];
    }
  }
}
