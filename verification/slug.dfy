/** The image slug of a card name: lower-case it, then replace every maximal run
    of characters outside `[a-z0-9]` by a single `-`. */
module Slug {
  import opened Ascii

  /** Drops the maximal leading run of characters outside `[a-z0-9]`: the text
      that one greedy match of `[^a-z0-9]+` consumes. */
  function SkipRun(t: string): (r: string)
    ensures |r| <= |t|
    ensures r == t[|t| - |r|..]
    ensures forall i :: 0 <= i < |t| - |r| ==> !IsSlugChar(t[i])
    ensures r == [] || IsSlugChar(r[0])
    ensures t != [] && !IsSlugChar(t[0]) ==> |r| < |t|
  {
    if t != [] && !IsSlugChar(t[0]) then SkipRun(t[1..]) else t
  }

  /** `.replace(/[^a-z0-9]+/g, '-')`: scanning left to right, a character of
      `[a-z0-9]` is copied, and a character outside it starts a match that
      swallows the whole run and emits one `-`. */
  function ReplaceRuns(t: string): (r: string)
    ensures |r| <= |t|
    ensures r == [] <==> t == []
    ensures r != [] ==> (r[0] == '-' <==> !IsSlugChar(t[0]))
    ensures forall i :: 0 <= i < |r| ==> IsSlugChar(r[i]) || r[i] == '-'
    ensures forall i :: 0 <= i < |r| - 1 ==> !(r[i] == '-' && r[i + 1] == '-')
    decreases |t|
  {
    if t == [] then []
    else if IsSlugChar(t[0]) then [t[0]] + ReplaceRuns(t[1..])
    else ['-'] + ReplaceRuns(SkipRun(t))
  }

  /** `slugify(name) = name.toLowerCase().replace(/[^a-z0-9]+/g, '-')`. */
  function Slugify(name: string): (r: string)
    ensures |r| <= |name|
    ensures r == [] <==> name == []
    ensures forall i :: 0 <= i < |r| ==> IsSlugChar(r[i]) || r[i] == '-'
    ensures forall i :: 0 <= i < |r| - 1 ==> !(r[i] == '-' && r[i + 1] == '-')
  {
    ReplaceRuns(Lower(name))
  }

  /** The characters of `t` that lie in `[a-z0-9]`, in order. */
  function SlugChars(t: string): string
  {
    if t == [] then []
    else (if IsSlugChar(t[0]) then [t[0]] else []) + SlugChars(t[1..])
  }

  lemma {:induction false} SlugCharsSkipRun(t: string)
    ensures SlugChars(SkipRun(t)) == SlugChars(t)
    decreases |t|
  {
    if t != [] && !IsSlugChar(t[0]) {
      SlugCharsSkipRun(t[1..]);
    }
  }

  /** The replacement keeps every `[a-z0-9]` character, in order, and drops no
      other one but the replaced runs. */
  lemma {:induction false} ReplaceRunsKeepsSlugChars(t: string)
    ensures SlugChars(ReplaceRuns(t)) == SlugChars(t)
    decreases |t|
  {
    if t != [] {
      if IsSlugChar(t[0]) {
        ReplaceRunsKeepsSlugChars(t[1..]);
        assert ([t[0]] + ReplaceRuns(t[1..]))[1..] == ReplaceRuns(t[1..]);
      } else {
        var rest := SkipRun(t);
        ReplaceRunsKeepsSlugChars(rest);
        SlugCharsSkipRun(t);
        assert (['-'] + ReplaceRuns(rest))[1..] == ReplaceRuns(rest);
      }
    }
  }

  /** The lower-cased letters and the digits of a name appear in its slug in the
      same order, and they are the only such characters there. */
  lemma SlugifyKeepsLowerAlnum(name: string)
    ensures SlugChars(Slugify(name)) == SlugChars(Lower(name))
  {
    ReplaceRunsKeepsSlugChars(Lower(name));
  }

  /** A string already in slug shape is left alone by the replacement. */
  lemma {:induction false} ReplaceRunsFixesSlugShape(t: string)
    requires forall i :: 0 <= i < |t| ==> IsSlugChar(t[i]) || t[i] == '-'
    requires forall i :: 0 <= i < |t| - 1 ==> !(t[i] == '-' && t[i + 1] == '-')
    ensures ReplaceRuns(t) == t
    decreases |t|
  {
    if t != [] {
      var tail := t[1..];
      assert forall i :: 0 <= i < |tail| ==> tail[i] == t[i + 1];
      ReplaceRunsFixesSlugShape(tail);
      if IsSlugChar(t[0]) {
        assert ReplaceRuns(t) == [t[0]] + tail;
      } else {
        assert tail == [] || IsSlugChar(tail[0]);
        assert SkipRun(t) == tail;
        assert ReplaceRuns(t) == ['-'] + tail;
      }
    }
  }

  /** Slugifying a slug changes nothing. */
  lemma SlugifyIdempotent(name: string)
    ensures Slugify(Slugify(name)) == Slugify(name)
  {
    var s := Slugify(name);
    LowerFixesSlugAlphabet(s);
    ReplaceRunsFixesSlugShape(s);
  }

  /** Reference definition, in two passes: every character outside `[a-z0-9]`
      becomes `-`, ... */
  function MaskChar(c: char): char {
    if IsSlugChar(c) then c else '-'
  }

  function Mask(t: string): (r: string)
    ensures |r| == |t|
  {
    seq(|t|, i requires 0 <= i < |t| => MaskChar(t[i]))
  }

  lemma MaskCons(t: string)
    requires t != []
    ensures Mask(t) == [MaskChar(t[0])] + Mask(t[1..])
  {
  }

  /** ... then each run of `-` shrinks to one. */
  function Squeeze(u: string): string
    decreases |u|
  {
    if |u| <= 1 then u
    else if u[0] == '-' && u[1] == '-' then Squeeze(u[1..])
    else [u[0]] + Squeeze(u[1..])
  }

  /** A leading dash followed by a run that the replacement skips squeezes into
      that one dash. */
  lemma {:induction false} SqueezeDashRun(t: string)
    requires t != [] && !IsSlugChar(t[0])
    ensures Squeeze(['-'] + Mask(t[1..])) == ['-'] + Squeeze(Mask(SkipRun(t)))
    decreases |t|
  {
    var tail := t[1..];
    var u := ['-'] + Mask(tail);
    assert SkipRun(t) == SkipRun(tail);
    if tail == [] {
      assert u == ['-'];
    } else {
      MaskCons(tail);
      assert u[1..] == Mask(tail);
      if IsSlugChar(tail[0]) {
        assert SkipRun(tail) == tail;
        assert u[1] != '-';
      } else {
        assert u[1] == '-';
        assert Squeeze(u) == Squeeze(Mask(tail));
        SqueezeDashRun(tail);
        assert Mask(tail) == ['-'] + Mask(tail[1..]);
      }
    }
  }

  /** The one-pass replacement agrees with the two-pass reference definition:
      each maximal run outside `[a-z0-9]` becomes exactly one `-`. */
  lemma {:induction false} ReplaceRunsIsSqueezedMask(t: string)
    ensures ReplaceRuns(t) == Squeeze(Mask(t))
    decreases |t|
  {
    if t != [] {
      var m := Mask(t);
      MaskCons(t);
      if IsSlugChar(t[0]) {
        ReplaceRunsIsSqueezedMask(t[1..]);
        if |m| > 1 {
          assert m[1..] == Mask(t[1..]);
          assert Squeeze(m) == [m[0]] + Squeeze(m[1..]);
        }
      } else {
        ReplaceRunsIsSqueezedMask(SkipRun(t));
        SqueezeDashRun(t);
      }
    }
  }

  /** The slug is the masked, squeezed lower-case name. */
  lemma SlugifyMatchesReference(name: string)
    ensures Slugify(name) == Squeeze(Mask(Lower(name)))
  {
    ReplaceRunsIsSqueezedMask(Lower(name));
  }
}
