/** The names that moveToDeprecated (tools/learn/cmd_apply_decision.go) gives: what can be read back from
    them, and which files get the same one. */
module DeprecatedNames {

  import opened Prelude
  import opened Lifecycle

  function OrMd(ext: string): string {
    if ext == "" then ".md" else ext
  }

  lemma {:induction false} PartsOfTarget(p: Path, stamp: string, stem: string, ext: string)
    requires NameParts(p.base, stem, ext)
    ensures DeprecatedPath(p, stamp) == Path(p.dir + ["_deprecated"], stem + "-" + stamp + OrMd(ext))
    ensures NameParts(DeprecatedPath(p, stamp).base, stem + "-" + stamp, OrMd(ext))
  {
    PartsAreUnique(p.base, stem, ext);
    assert stem + "-" + stamp + OrMd(ext) == (stem + "-" + stamp) + OrMd(ext);
  }

  /** Directory, stem, stamp and extension can be read back from a deprecated path. */
  lemma {:induction false} NameReadsBack(p: Path, stamp: string, stem: string, ext: string)
    requires NameParts(p.base, stem, ext) && IsStamp(stamp)
    ensures var d := DeprecatedPath(p, stamp);
            && d.dir != [] && Front(d.dir) == p.dir && Last(d.dir) == "_deprecated"
            && |Stem(d.base)| >= 17 && Stem(d.base)[..|Stem(d.base)| - 17] == stem
            && StampOf(d.base) == Some(stamp) && Ext(d.base) == OrMd(ext)
  {
    var d := DeprecatedPath(p, stamp);
    PartsOfTarget(p, stamp, stem, ext);
    PartsAreUnique(d.base, stem + "-" + stamp, OrMd(ext));
    StampReadsBack(p, stamp);
    assert (stem + "-" + stamp)[..|stem|] == stem;
    assert Front(p.dir + ["_deprecated"]) == p.dir;
  }

  /** Two files get the same deprecated path exactly if the stamps, the directories and the stems are the same,
      and the extensions, a missing one counting as .md. */
  lemma {:induction false} SameTargetIff(p: Path, stamp: string, stem: string, ext: string,
      q: Path, stamp': string, stem': string, ext': string)
    requires NameParts(p.base, stem, ext) && IsStamp(stamp)
    requires NameParts(q.base, stem', ext') && IsStamp(stamp')
    ensures DeprecatedPath(p, stamp) == DeprecatedPath(q, stamp') <==>
            stamp == stamp' && p.dir == q.dir && stem == stem' && OrMd(ext) == OrMd(ext')
  {
    NameReadsBack(p, stamp, stem, ext);
    NameReadsBack(q, stamp', stem', ext');
    PartsOfTarget(p, stamp, stem, ext);
    PartsOfTarget(q, stamp', stem', ext');
  }

  /** With one stamp, different files get different deprecated paths, but for a file without an extension and
      its namesake with .md. */
  lemma {:induction false} CollisionIff(p: Path, q: Path, stamp: string)
    requires IsStamp(stamp) && p != q
    ensures DeprecatedPath(p, stamp) == DeprecatedPath(q, stamp) <==>
            p.dir == q.dir &&
            (('.' !in p.base && q.base == p.base + ".md") || ('.' !in q.base && p.base == q.base + ".md"))
  {
    PartsExist(p.base);
    PartsExist(q.base);
    SameTargetIff(p, stamp, Stem(p.base), Ext(p.base), q, stamp, Stem(q.base), Ext(q.base));
    if '.' !in p.base {
      PartsAreUnique(p.base, p.base, "");
      PartsAreUnique(p.base + ".md", p.base, ".md");
    }
    if '.' !in q.base {
      PartsAreUnique(q.base, q.base, "");
      PartsAreUnique(q.base + ".md", q.base, ".md");
    }
  }
}
