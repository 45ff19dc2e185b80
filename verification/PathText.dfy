/** Slash-separated text: relative paths as the sync and upload commands
    handle them, and the component lists behind Drive paths and URLs. */
module PathText {
  /** Index of the last slash, or -1. */
  function LastSlash(s: string): (i: int)
    ensures -1 <= i < |s|
    ensures i >= 0 ==> s[i] == '/'
    ensures forall k | i < k < |s| :: s[k] != '/'
  {
    if s == "" then -1
    else if s[|s| - 1] == '/' then |s| - 1
    else LastSlash(s[..|s| - 1])
  }

  function Dirname(rel: string): (dir: string)
    ensures rel != "" ==> |dir| < |rel|
  {
    var i := LastSlash(rel);
    if i < 0 then "" else rel[..i]
  }

  function Basename(rel: string): string {
    rel[LastSlash(rel) + 1..]
  }

  /** A path is its parent, a slash and a name without one; without a slash it is
      all name. */
  lemma ParentAndName(rel: string)
    ensures '/' !in Basename(rel)
    ensures '/' in rel ==> rel == Dirname(rel) + "/" + Basename(rel)
    ensures '/' !in rel ==> Dirname(rel) == "" && Basename(rel) == rel
  {
    var i := LastSlash(rel);
    if i >= 0 {
      assert rel[i + 1..] == Basename(rel);
    }
  }

  function JoinRel(dir: string, name: string): string {
    if dir == "" then name else dir + "/" + name
  }

  /** `rel` lies somewhere inside the folder `dir`. */
  predicate Under(rel: string, dir: string) {
    dir + "/" <= rel
  }

  lemma LastSlashIs(s: string, i: nat)
    requires i < |s| && s[i] == '/' && forall k | i < k < |s| :: s[k] != '/'
    ensures LastSlash(s) == i
  {
  }

  lemma UnderParent(rel: string)
    requires Dirname(rel) != ""
    ensures Under(rel, Dirname(rel))
  {
    assert rel[..LastSlash(rel) + 1] == Dirname(rel) + "/";
  }

  /** Whatever contains a path is its parent or contains its parent. */
  lemma UnderOrParent(rel: string, dir: string)
    requires Under(rel, dir)
    ensures Dirname(rel) == dir || Under(Dirname(rel), dir)
  {
    assert rel[|dir|] == (dir + "/")[|dir|] == '/';
    assert rel[..|dir|] == (dir + "/")[..|dir|] == dir;
    var i := LastSlash(rel);
    if i > |dir| {
      assert rel[..i][..|dir| + 1] == rel[..|dir| + 1];
    }
  }

  lemma UnderTransitive(a: string, b: string, c: string)
    requires Under(a, b) && Under(b, c)
    ensures Under(a, c)
  {
    assert a[..|c| + 1] == b[..|c| + 1];
  }

  /** Two folders containing the same path are nested or equal. */
  lemma UnderBoth(rel: string, a: string, b: string)
    requires Under(rel, a) && Under(rel, b) && |a| <= |b|
    ensures a == b || Under(b, a)
  {
    assert a == rel[..|a|] && b == rel[..|b|];
    if |a| < |b| {
      assert b[..|a| + 1] == rel[..|a| + 1] == a + "/";
    }
  }

  /** How a Drive file is listed: its plain name, and its type when it has
      one. */
  function DisplayName(plain: string, ftype: string): string {
    if ftype == "" then plain else plain + "." + ftype
  }

  // ---- component lists ----

  function Nonempty(name: string): seq<string> {
    if name == "" then [] else [name]
  }

  /** Split at slashes and drop the empty segments. */
  function Components(s: string): seq<string> {
    var i := LastSlash(s);
    if i < 0 then Nonempty(s) else Components(s[..i]) + Nonempty(Basename(s))
  }

  predicate IsName(name: string) {
    name != "" && '/' !in name
  }

  predicate AreNames(names: seq<string>) {
    forall i | 0 <= i < |names| :: IsName(names[i])
  }

  /** `/a/b/c` from its names. */
  function SlashText(names: seq<string>): string {
    if names == [] then "" else SlashText(names[..|names| - 1]) + "/" + names[|names| - 1]
  }

  lemma ComponentsSnoc(a: string, b: string)
    requires '/' !in b
    ensures Components(a + "/" + b) == Components(a) + Nonempty(b)
  {
    var s := a + "/" + b;
    LastSlashIs(s, |a|);
    assert s[..|a|] == a && Basename(s) == b;
  }

  lemma SplitAtLast(b: string)
    requires LastSlash(b) >= 0
    ensures b == b[..LastSlash(b)] + "/" + Basename(b) && '/' !in Basename(b)
  {
    var i := LastSlash(b);
    assert b[i + 1..] == Basename(b);
  }

  lemma {:induction false} ComponentsJoin(a: string, b: string)
    ensures Components(a + "/" + b) == Components(a) + Components(b)
    decreases |b|
  {
    var i := LastSlash(b);
    if i < 0 {
      assert b[0..] == b;
      ComponentsSnoc(a, b);
    } else {
      var front, last := b[..i], Basename(b);
      SplitAtLast(b);
      calc {
        Components(a + "/" + b);
        { assert a + "/" + b == (a + "/" + front) + "/" + last; }
        Components((a + "/" + front) + "/" + last);
        { ComponentsSnoc(a + "/" + front, last); }
        Components(a + "/" + front) + Nonempty(last);
        { ComponentsJoin(a, front); }
        Components(a) + (Components(front) + Nonempty(last));
        Components(a) + Components(b);
      }
    }
  }

  /** The same of a text that is joined from two. */
  lemma JoinedIs(text: string, a: string, b: string)
    requires text == a + "/" + b
    ensures Components(text) == Components(a) + Components(b)
  {
    ComponentsJoin(a, b);
  }

  /** A slash at the end makes no component. */
  lemma SlashAtEnd(text: string, a: string)
    requires text == a + "/"
    ensures Components(text) == Components(a)
  {
    assert text == a + "/" + "";
    ComponentsSnoc(a, "");
  }

  lemma NameIsComponent(name: string)
    requires IsName(name)
    ensures Components(name) == [name]
  {
    assert LastSlash(name) == -1;
    assert name[0..] == name;
  }

  /** Names written with slashes are read back. */
  lemma {:induction false} ComponentsOfText(prefix: string, names: seq<string>)
    requires AreNames(names)
    ensures Components(prefix + SlashText(names)) == Components(prefix) + names
  {
    if names == [] {
      assert prefix + "" == prefix;
    } else {
      var front, last := names[..|names| - 1], names[|names| - 1];
      var text := SlashText(front);
      assert names == front + [last];
      calc {
        Components(prefix + SlashText(names));
        { assert prefix + (text + "/" + last) == (prefix + text) + "/" + last; }
        Components((prefix + text) + "/" + last);
        { ComponentsSnoc(prefix + text, last); }
        Components(prefix + text) + [last];
        { ComponentsOfText(prefix, front); }
        Components(prefix) + front + [last];
        Components(prefix) + names;
      }
    }
  }

  lemma RootedComponents(text: string, names: seq<string>)
    requires AreNames(names) && text == SlashText(names)
    ensures Components(text) == names
  {
    var none: string := [];
    ComponentsOfText(none, names);
    assert none + text == text;
    assert Components(none) == [];
  }

  lemma {:induction false} ComponentsAreNames(s: string)
    ensures AreNames(Components(s))
    decreases |s|
  {
    var i := LastSlash(s);
    if i >= 0 {
      ComponentsAreNames(s[..i]);
      SplitAtLast(s);
    }
  }
}
