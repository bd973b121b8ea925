/** Which navigation item a path belongs to: `activeHref` of
    src/lib/navigation.ts. */
module Navigation {

  datatype Option<+T> = None | Some(value: T)
  datatype Target = Target(href: string, exact: bool)

  predicate Matches(path: string, target: Target) {
    path == target.href || (!target.exact && target.href + "/" <= path)
  }

  /** The answer is a matching href that no match is longer than. */
  predicate IsLongestMatch(path: string, targets: seq<Target>, href: string) {
    && (exists t | t in targets :: Matches(path, t) && t.href == href)
    && (forall t | t in targets :: Matches(path, t) ==> |t.href| <= |href|)
  }

  method ActiveHref(path: string, targets: seq<Target>) returns (best: Option<string>)
    ensures best == None <==> forall t | t in targets :: !Matches(path, t)
    ensures best.Some? ==> IsLongestMatch(path, targets, best.value)
  {
    best := None;
    for i := 0 to |targets|
      invariant best == None <==> forall k | 0 <= k < i :: !Matches(path, targets[k])
      invariant best.Some? ==>
                  && (exists k | 0 <= k < i :: Matches(path, targets[k]) && targets[k].href == best.value)
                  && (forall k | 0 <= k < i :: Matches(path, targets[k]) ==> |targets[k].href| <= |best.value|)
    {
      var target := targets[i];
      if Matches(path, target) && (best == None || |target.href| > |best.value|) {
        best := Some(target.href);
      }
    }
    assert forall t | t in targets :: exists k | 0 <= k < |targets| :: targets[k] == t;
  }

  /** Every match is a prefix of the path, so two matches of one length are one
      href. */
  lemma MatchIsPrefix(path: string, t: Target)
    requires Matches(path, t)
    ensures t.href == path[..|t.href|]
    ensures t.href != path ==> |t.href| < |path| && path[|t.href|] == '/' && !t.exact
  {
    if t.href != path {
      var slashed := t.href + "/";
      assert slashed[|t.href|] == '/';
      assert slashed == path[..|slashed|];
      assert t.href == slashed[..|t.href|];
    }
  }

  /** There is only one longest match. */
  lemma LongestMatchIsUnique(path: string, targets: seq<Target>, a: string, b: string)
    requires IsLongestMatch(path, targets, a) && IsLongestMatch(path, targets, b)
    ensures a == b
  {
    var t :| t in targets && Matches(path, t) && t.href == a;
    var u :| u in targets && Matches(path, u) && u.href == b;
    MatchIsPrefix(path, t);
    MatchIsPrefix(path, u);
  }

  /** The order of the targets, and repeating one, makes no difference: any two
      answers the method may give for the same set of targets are equal. */
  lemma OrderDoesNotMatter(path: string, xs: seq<Target>, ys: seq<Target>, a: Option<string>, b: Option<string>)
    requires forall t :: t in xs <==> t in ys
    requires a == None <==> forall t | t in xs :: !Matches(path, t)
    requires b == None <==> forall t | t in ys :: !Matches(path, t)
    requires a.Some? ==> IsLongestMatch(path, xs, a.value)
    requires b.Some? ==> IsLongestMatch(path, ys, b.value)
    ensures a == b
  {
    if a.Some? && b.Some? {
      var u :| u in ys && Matches(path, u) && u.href == b.value;
      assert IsLongestMatch(path, xs, b.value);
      LongestMatchIsUnique(path, xs, a.value, b.value);
    }
  }

  /** An exact target never claims a descendant; any other target claims its own
      path and what lies under it, and not a sibling that merely starts alike. */
  lemma ClaimedPaths(t: Target, rest: string)
    ensures Matches(t.href, t)
    ensures t.exact ==> forall path :: Matches(path, t) <==> path == t.href
    ensures !t.exact ==> Matches(t.href + "/" + rest, t)
    ensures rest != "" && rest[0] != '/' ==> !Matches(t.href + rest, t)
  {
    assert t.href + "/" <= t.href + "/" + rest;
    if rest != "" && rest[0] != '/' && Matches(t.href + rest, t) {
      MatchIsPrefix(t.href + rest, t);
    }
  }
}
