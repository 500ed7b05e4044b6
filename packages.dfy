/**
 * The packages menu: the fixed list of libraries a script may use, and the list of the
 * ones the user has enabled, which a toggle adds a name to or removes it from.
 */
module Packages {

  /** The keys of `AVAILABLE_PACKAGES`, in declaration order. */
  const AvailablePackages: seq<string> := ["axios", "lodash", "moment", "dayjs", "chalk", "ramda"]

  ghost predicate NoDuplicates(s: seq<string>) {
    forall i, j :: 0 <= i < j < |s| ==> s[i] != s[j]
  }

  /** `prev.filter(p => p !== pkg)`. */
  function Removed(pkgs: seq<string>, pkg: string): (r: seq<string>)
    ensures |r| <= |pkgs|
  {
    if pkgs == [] then []
    else if pkgs[0] == pkg then Removed(pkgs[1..], pkg)
    else [pkgs[0]] + Removed(pkgs[1..], pkg)
  }

  /** The filter keeps exactly the other names, and keeps them distinct when they were. */
  lemma {:induction false} RemovedMembers(pkgs: seq<string>, pkg: string)
    ensures forall q :: q in Removed(pkgs, pkg) <==> q in pkgs && q != pkg
    ensures NoDuplicates(pkgs) ==> NoDuplicates(Removed(pkgs, pkg))
  {
    if pkgs != [] {
      RemovedMembers(pkgs[1..], pkg);
      assert pkgs == [pkgs[0]] + pkgs[1..];
      if NoDuplicates(pkgs) {
        assert NoDuplicates(pkgs[1..]) by {
          forall i, j | 0 <= i < j < |pkgs| - 1 ensures pkgs[1..][i] != pkgs[1..][j] {
            assert pkgs[1..][i] == pkgs[i + 1] && pkgs[1..][j] == pkgs[j + 1];
          }
        }
        assert pkgs[0] !in pkgs[1..];
      }
    }
  }

  /** `handlePackageToggle(pkg)` on the enabled list: an enabled name is removed, any other
      is appended. */
  function Toggled(pkgs: seq<string>, pkg: string): seq<string>
  {
    if pkg in pkgs then Removed(pkgs, pkg) else pkgs + [pkg]
  }

  /** A toggle flips the membership of `pkg` and of no other name. */
  lemma ToggleFlips(pkgs: seq<string>, pkg: string)
    ensures pkg in Toggled(pkgs, pkg) <==> pkg !in pkgs
    ensures forall q :: q != pkg ==> (q in Toggled(pkgs, pkg) <==> q in pkgs)
  {
    RemovedMembers(pkgs, pkg);
  }

  /** A toggle never introduces a duplicate. */
  lemma ToggleKeepsDistinct(pkgs: seq<string>, pkg: string)
    requires NoDuplicates(pkgs)
    ensures NoDuplicates(Toggled(pkgs, pkg))
  {
    RemovedMembers(pkgs, pkg);
    if pkg !in pkgs {
      var r := pkgs + [pkg];
      forall i, j | 0 <= i < j < |r| ensures r[i] != r[j] {
        if j == |pkgs| {
          assert r[i] == pkgs[i];
        }
      }
    }
  }

  /** Enabling a disabled name and disabling it again gives back exactly the old list. */
  lemma ToggleTwiceAbsent(pkgs: seq<string>, pkg: string)
    requires pkg !in pkgs
    ensures Toggled(Toggled(pkgs, pkg), pkg) == pkgs
  {
    var once := pkgs + [pkg];
    assert once[|pkgs|] == pkg;
    assert Removed(once, pkg) == pkgs by {
      RemovedAppend(pkgs, pkg);
    }
  }

  /** Disabling an enabled name and enabling it again keeps the same names but moves `pkg`
      to the end of the list. */
  lemma ToggleTwicePresent(pkgs: seq<string>, pkg: string)
    requires pkg in pkgs
    ensures Toggled(Toggled(pkgs, pkg), pkg) == Removed(pkgs, pkg) + [pkg]
  {
    RemovedMembers(pkgs, pkg);
  }

  /** Filtering a name out of a list ending in that name drops the end, when it occurs
      nowhere before. */
  lemma {:induction false} RemovedAppend(pkgs: seq<string>, pkg: string)
    requires pkg !in pkgs
    ensures Removed(pkgs + [pkg], pkg) == pkgs
  {
    if pkgs == [] {
      assert [] + [pkg] == [pkg];
      assert [pkg][1..] == [];
    } else {
      assert (pkgs + [pkg])[1..] == pkgs[1..] + [pkg];
      assert pkg !in pkgs[1..];
      RemovedAppend(pkgs[1..], pkg);
      assert pkgs == [pkgs[0]] + pkgs[1..];
    }
  }
}
