/**
 * The language switcher's path rewrite: the locale is the first segment of
 * the path, so switching language replaces that segment and keeps the rest
 * of the route.
 */
module LanguageSwitcher {
  import opened Types

  const SEP: char := '/'

  /** `s.split('/')`: the text between separators, including empty pieces at either end. */
  function Split(s: string): (parts: seq<string>)
    ensures |parts| >= 1
    ensures forall i :: 0 <= i < |parts| ==> SEP !in parts[i]
  {
    if s == [] then [""]
    else if s[0] == SEP then [""] + Split(s[1..])
    else
      var rest := Split(s[1..]);
      [[s[0]] + rest[0]] + rest[1..]
  }

  /** `parts.join('/')`. */
  function Join(parts: seq<string>): string
  {
    if parts == [] then ""
    else if |parts| == 1 then parts[0]
    else parts[0] + [SEP] + Join(parts[1..])
  }

  lemma JoinCons(x: string, parts: seq<string>)
    requires parts != []
    ensures Join([x] + parts) == x + [SEP] + Join(parts)
  {
    assert ([x] + parts)[1..] == parts;
  }

  /** Joining the pieces gives back the path. */
  lemma {:induction false} JoinSplit(s: string)
    ensures Join(Split(s)) == s
  {
    if s != [] {
      JoinSplit(s[1..]);
      var rest := Split(s[1..]);
      if s[0] == SEP {
        JoinCons("", rest);
      } else if |rest| == 1 {
        assert Split(s) == [[s[0]] + rest[0]];
      } else {
        JoinCons([s[0]] + rest[0], rest[1..]);
        JoinCons(rest[0], rest[1..]);
        assert rest == [rest[0]] + rest[1..];
      }
    }
  }

  /** Splitting a join of slash-free pieces gives back the pieces. */
  lemma {:induction false} SplitJoin(parts: seq<string>)
    requires |parts| >= 1
    requires forall i :: 0 <= i < |parts| ==> SEP !in parts[i]
    ensures Split(Join(parts)) == parts
    decreases |parts|, |parts[0]|
  {
    var head := parts[0];
    if head == [] {
      if |parts| > 1 {
        SplitJoin(parts[1..]);
        JoinCons(head, parts[1..]);
        assert Join(parts) == [SEP] + Join(parts[1..]);
        assert Join(parts)[1..] == Join(parts[1..]);
        assert parts == [""] + parts[1..];
      }
    } else {
      var shorter := [head[1..]] + parts[1..];
      assert forall i :: 1 <= i < |shorter| ==> shorter[i] == parts[i];
      SplitJoin(shorter);
      var j := Join(parts);
      assert j == [head[0]] + Join(shorter) by {
        if |parts| == 1 {
          assert head == [head[0]] + head[1..];
        } else {
          JoinCons(head, parts[1..]);
          JoinCons(head[1..], parts[1..]);
          assert head == [head[0]] + head[1..];
        }
      }
      assert j[1..] == Join(shorter);
      assert head == [head[0]] + shorter[0];
      assert shorter[1..] == parts[1..];
      assert parts == [head] + parts[1..];
    }
  }

  /** `segments[1] = locale` on the array of pieces; a one-piece array grows to two. */
  function WithLocale(parts: seq<string>, locale: string): (r: seq<string>)
    requires |parts| >= 1
    ensures |r| == if |parts| >= 2 then |parts| else 2
    ensures r[1] == locale
    ensures forall i :: 0 <= i < |parts| && i != 1 ==> r[i] == parts[i]
  {
    if |parts| >= 2 then parts[1 := locale] else parts + [locale]
  }

  /** The route the switcher navigates to. */
  function LocalePath(pathname: string, locale: string): string
  {
    Join(WithLocale(Split(pathname), locale))
  }

  /**
   * The new path's pieces are the old ones with piece 1 replaced by the
   * locale: every other piece and the number of pieces are kept (a path with
   * one piece gains a second).
   */
  lemma LocalePathPieces(pathname: string, locale: string)
    requires SEP !in locale
    ensures Split(LocalePath(pathname, locale)) == WithLocale(Split(pathname), locale)
    ensures var before, after := Split(pathname), Split(LocalePath(pathname, locale));
      && |after| == (if |before| >= 2 then |before| else 2)
      && after[1] == locale
      && forall i :: 0 <= i < |before| && i != 1 ==> after[i] == before[i]
  {
    var w := WithLocale(Split(pathname), locale);
    SplitJoin(w);
  }

  /** Switching to the same locale twice is switching once. */
  lemma LocalePathIdempotent(pathname: string, locale: string)
    requires SEP !in locale
    ensures LocalePath(LocalePath(pathname, locale), locale) == LocalePath(pathname, locale)
  {
    LocalePathPieces(pathname, locale);
    var w := WithLocale(Split(pathname), locale);
    assert WithLocale(w, locale) == w;
  }

  /** Switching to the current locale leaves a localised path as it is. */
  lemma LocalePathSameLocale(pathname: string, locale: string)
    requires |Split(pathname)| >= 2 && Split(pathname)[1] == locale
    ensures LocalePath(pathname, locale) == pathname
  {
    var parts := Split(pathname);
    assert WithLocale(parts, locale) == parts;
    JoinSplit(pathname);
  }

  const EnPath: string := "/en/a/b"
  const ZhPath: string := "/zh/a/b"

  lemma EnPieces()
    ensures Join(["", "en", "a", "b"]) == EnPath
  {
    JoinCons("a", ["b"]);
    JoinCons("en", ["a", "b"]);
    JoinCons("", ["en", "a", "b"]);
  }

  lemma ZhPieces()
    ensures Join(["", "zh", "a", "b"]) == ZhPath
  {
    JoinCons("a", ["b"]);
    JoinCons("zh", ["a", "b"]);
    JoinCons("", ["zh", "a", "b"]);
  }

  /** `/en/a/b` switched to `zh` is `/zh/a/b`. */
  lemma SwitchExample()
    ensures LocalePath(EnPath, "zh") == ZhPath
  {
    var parts: seq<string> := ["", "en", "a", "b"];
    EnPieces();
    SplitJoin(parts);
    assert WithLocale(parts, "zh") == ["", "zh", "a", "b"];
    ZhPieces();
  }

  /**
   * `changeLocale`: no navigation without a pathname (a missing or empty
   * one); otherwise split it, overwrite piece 1 in place, and push the join.
   */
  method ChangeLocale(pathname: Option<string>, newLocale: string) returns (pushed: Option<string>)
    ensures pathname.None? || pathname.value == "" ==> pushed.None?
    ensures pathname.Some? && pathname.value != "" ==> pushed == Some(LocalePath(pathname.value, newLocale))
  {
    if pathname.None? || pathname.value == "" {
      return None;
    }
    var parts := Split(pathname.value);
    var segments := new string[if |parts| >= 2 then |parts| else 2](
      i requires 0 <= i => if i < |parts| then parts[i] else "");
    segments[1] := newLocale;
    assert segments[..] == WithLocale(parts, newLocale);
    pushed := Some(Join(segments[..]));
  }
}
