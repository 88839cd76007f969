/** The image part of `parse_product_detail`: which images are planned under
    which role, where each is saved, and how the saved paths become the row's
    `image_path` and `features` columns. */
module ImagePlan {
  import opened Text
  import opened Seqs

  // ------------------------------------------------------------------ plan

  /** The role of a planned image: the representative image, or the n-th
      detail image. */
  datatype Role = Main | Detail(n: nat)

  /** `"main"`, or `f"detail{n}"`. */
  function RoleName(r: Role): string {
    match r
    case Main => "main"
    case Detail(n) => "detail" + NatToString(n)
  }

  /** One `(img_name, img_url)` pair of `all_images`. */
  datatype Entry = Entry(role: Role, url: string)

  /** `main_image_url`: the `og:image` content, or else the first detail URL. */
  function MainUrl(og: string, details: seq<string>): string {
    if og != "" then og else if |details| > 0 then details[0] else ""
  }

  /** The URLs of `urls` other than `x`, in order. */
  function Without(urls: seq<string>, x: string): seq<string> {
    if |urls| == 0 then []
    else (if urls[0] != x then [urls[0]] else []) + Without(urls[1..], x)
  }

  /** The detail entries of `urls`, skipping `main`, numbered from `next`. */
  function Numbered(urls: seq<string>, main: string, next: nat): seq<Entry> {
    if |urls| == 0 then []
    else if urls[0] != main then [Entry(Detail(next), urls[0])] + Numbered(urls[1..], main, next + 1)
    else Numbered(urls[1..], main, next)
  }

  /** `all_images` for the de-duplicated detail URLs `details`. */
  function Plan(og: string, details: seq<string>): seq<Entry> {
    var main := MainUrl(og, details);
    (if main != "" then [Entry(Main, main)] else []) + Numbered(details, main, 1)
  }

  /** The plan-building code: de-duplicate the detail URLs
      (`list(dict.fromkeys(...))`), choose the main URL, then number the
      other detail URLs with the counter `detail_count`. */
  method BuildPlan(og: string, found: seq<string>) returns (plan: seq<Entry>)
    ensures plan == Plan(og, Dedup(found))
  {
    var details := DedupLoop(found);
    var main := og;
    if main == "" && |details| > 0 {
      main := details[0];
    }
    plan := [];
    if main != "" {
      plan := [Entry(Main, main)];
    }
    var count := 1;
    for i := 0 to |details|
      invariant plan + Numbered(details[i..], main, count) == Plan(og, details)
    {
      assert details[i..][1..] == details[i + 1..];
      if details[i] != main {
        plan := plan + [Entry(Detail(count), details[i])];
        count := count + 1;
      }
    }
  }

  lemma {:induction false} WithoutSpec(urls: seq<string>, x: string)
    ensures forall y :: y in Without(urls, x) <==> y in urls && y != x
    ensures Distinct(urls) ==> Distinct(Without(urls, x))
  {
    if |urls| > 0 {
      WithoutSpec(urls[1..], x);
      assert urls == [urls[0]] + urls[1..];
      if Distinct(urls) {
        assert Distinct(urls[1..]);
        assert urls[0] !in urls[1..];
      }
    }
  }

  /** The URLs other than the first of a distinct sequence are its tail. */
  lemma {:induction false} WithoutFirst(urls: seq<string>)
    requires |urls| > 0 && Distinct(urls)
    ensures Without(urls, urls[0]) == urls[1..]
  {
    WithoutAbsent(urls[1..], urls[0]);
  }

  lemma {:induction false} WithoutAbsent(urls: seq<string>, x: string)
    requires x !in urls
    ensures Without(urls, x) == urls
  {
    if |urls| > 0 {
      WithoutAbsent(urls[1..], x);
      assert [urls[0]] + urls[1..] == urls;
    }
  }

  /** The detail entries are numbered `next`, `next + 1`, ... with no gap,
      one for each URL other than `main`, in order. */
  lemma {:induction false} NumberedSpec(urls: seq<string>, main: string, next: nat)
    ensures |Numbered(urls, main, next)| == |Without(urls, main)|
    ensures forall k :: 0 <= k < |Without(urls, main)| ==>
      Numbered(urls, main, next)[k] == Entry(Detail(next + k), Without(urls, main)[k])
  {
    if |urls| > 0 {
      if urls[0] != main {
        NumberedSpec(urls[1..], main, next + 1);
      } else {
        NumberedSpec(urls[1..], main, next);
      }
    }
  }

  /** The plan is the main image first (when there is one), then
      `detail1`, `detail2`, ... for the detail URLs other than the main one,
      in their order. */
  lemma PlanShape(og: string, details: seq<string>)
    ensures var main := MainUrl(og, details);
            main != "" ==> |Plan(og, details)| > 0 && Plan(og, details)[0] == Entry(Main, main)
    ensures var main := MainUrl(og, details);
            var off := if main != "" then 1 else 0;
            |Plan(og, details)| == off + |Without(details, main)|
            && forall k :: off <= k < |Plan(og, details)| ==>
                 Plan(og, details)[k] == Entry(Detail(k - off + 1), Without(details, main)[k - off])
  {
    var main := MainUrl(og, details);
    var plan := Plan(og, details);
    var off := if main != "" then 1 else 0;
    NumberedSpec(details, main, 1);
    assert forall k :: off <= k < |plan| ==> plan[k] == Numbered(details, main, 1)[k - off];
  }

  /** What the plan holds, for distinct detail URLs: its shape, and no URL
      and no role twice; an entry is a detail entry exactly when its URL is
      not the main one. */
  lemma PlanSpec(og: string, details: seq<string>)
    requires Distinct(details)
    ensures var main := MainUrl(og, details);
            main != "" ==> |Plan(og, details)| > 0 && Plan(og, details)[0] == Entry(Main, main)
    ensures var main := MainUrl(og, details);
            var off := if main != "" then 1 else 0;
            |Plan(og, details)| == off + |Without(details, main)|
            && forall k :: off <= k < |Plan(og, details)| ==>
                 Plan(og, details)[k] == Entry(Detail(k - off + 1), Without(details, main)[k - off])
    ensures forall k :: 0 <= k < |Plan(og, details)| ==>
      (Plan(og, details)[k].url != MainUrl(og, details) <==> Plan(og, details)[k].role.Detail?)
    ensures forall i, j :: 0 <= i < j < |Plan(og, details)| ==>
      Plan(og, details)[i].url != Plan(og, details)[j].url && Plan(og, details)[i].role != Plan(og, details)[j].role
  {
    PlanShape(og, details);
    PlanUrls(og, details);
  }

  /** The URLs of a plan over distinct details: detail URLs differ from the
      main one and from each other. */
  lemma PlanUrls(og: string, details: seq<string>)
    requires Distinct(details)
    ensures forall k :: 0 <= k < |Plan(og, details)| ==>
      (Plan(og, details)[k].url != MainUrl(og, details) <==> Plan(og, details)[k].role.Detail?)
    ensures forall i, j :: 0 <= i < j < |Plan(og, details)| ==>
      Plan(og, details)[i].url != Plan(og, details)[j].url && Plan(og, details)[i].role != Plan(og, details)[j].role
  {
    var main := MainUrl(og, details);
    var plan := Plan(og, details);
    var off := if main != "" then 1 else 0;
    var rest := Without(details, main);
    PlanShape(og, details);
    WithoutSpec(details, main);
    assert forall k :: off <= k < |plan| ==> plan[k].url == rest[k - off] && rest[k - off] in rest;
  }

  /** With no `og:image`, the first detail URL is the main image and the
      detail entries are the remaining URLs; with one, the main image is the
      `og:image` and a detail URL equal to it is not planned again. */
  lemma MainFallback(og: string, details: seq<string>)
    requires Distinct(details)
    ensures og == "" && |details| > 0 ==>
      MainUrl(og, details) == details[0] && Without(details, MainUrl(og, details)) == details[1..]
    ensures og != "" ==> MainUrl(og, details) == og && og !in Without(details, og)
  {
    if og == "" && |details| > 0 {
      WithoutFirst(details);
    }
    WithoutSpec(details, og);
  }

  // ------------------------------------------------------------- downloads

  /** What `os.path.splitext` can return as an extension: nothing, or a
      suffix that starts with a dot and holds no path separator. */
  predicate IsExtension(e: string) {
    e == "" || (e[0] == '.' && '/' !in e)
  }

  /** `f"{img_name}{ext}"` with `ext` defaulting to `.jpg`. */
  function FileName(r: Role, ext: string): string {
    RoleName(r) + (if ext == "" then ".jpg" else ext)
  }

  /** `f"images/{product_id}/{filename}"` */
  function RelPath(pid: string, r: Role, ext: string): string {
    "images/" + pid + "/" + FileName(r, ext)
  }

  /** `image_rel_paths`: the paths of the entries whose download succeeds,
      in plan order. `extOf` stands for the extension of the URL's path and
      `fetchOk` for the download's outcome. */
  function SavedPaths(pid: string, plan: seq<Entry>, extOf: string -> string, fetchOk: string -> bool): seq<string> {
    if |plan| == 0 then []
    else
      var init := SavedPaths(pid, plan[..|plan| - 1], extOf, fetchOk);
      var e := plan[|plan| - 1];
      if fetchOk(e.url) then init + [RelPath(pid, e.role, extOf(e.url))] else init
  }

  /** `main_image_path`: the path of the last saved entry whose role is main. */
  function MainPath(pid: string, plan: seq<Entry>, extOf: string -> string, fetchOk: string -> bool): string {
    if |plan| == 0 then ""
    else
      var e := plan[|plan| - 1];
      if e.role == Main && fetchOk(e.url) then RelPath(pid, e.role, extOf(e.url))
      else MainPath(pid, plan[..|plan| - 1], extOf, fetchOk)
  }

  /** The download loop: a failed download is skipped and the loop goes on. */
  method SaveImages(pid: string, plan: seq<Entry>, extOf: string -> string, fetchOk: string -> bool)
    returns (paths: seq<string>, mainPath: string)
    ensures paths == SavedPaths(pid, plan, extOf, fetchOk)
    ensures mainPath == MainPath(pid, plan, extOf, fetchOk)
  {
    paths := [];
    mainPath := "";
    for i := 0 to |plan|
      invariant paths == SavedPaths(pid, plan[..i], extOf, fetchOk)
      invariant mainPath == MainPath(pid, plan[..i], extOf, fetchOk)
    {
      assert plan[..i + 1][..i] == plan[..i];
      var e := plan[i];
      if fetchOk(e.url) {
        var rel := RelPath(pid, e.role, extOf(e.url));
        paths := paths + [rel];
        if e.role == Main {
          mainPath := rel;
        }
      }
    }
    assert plan[..|plan|] == plan;
  }

  // --------------------------------------------------------------- features

  const DetailMarker := "/detail"

  predicate MarksDetail(path: string) {
    Contains(path, DetailMarker)
  }

  predicate IsDetailEntry(e: Entry) {
    e.role.Detail?
  }

  /** The `features` column: the saved paths containing `/detail`, joined with `"; "`. */
  function Features(paths: seq<string>): string {
    Join(Filter(paths, MarksDetail), "; ")
  }

  /** The features loop, then the join. */
  method BuildFeatures(paths: seq<string>) returns (features: string)
    ensures features == Features(paths)
  {
    var detailPaths := FilterLoop(paths, MarksDetail);
    features := Join(detailPaths, "; ");
  }

  // ------------------------------------------------------------- properties

  lemma RoleNameHasNoDot(r: Role)
    ensures '.' !in RoleName(r) && '/' !in RoleName(r)
  {
    if r.Detail? {
      var d := NatToString(r.n);
      assert forall i :: 0 <= i < |d| ==> IsDigit(d[i]);
    }
  }

  lemma RoleNameInjective(r1: Role, r2: Role)
    requires RoleName(r1) == RoleName(r2)
    ensures r1 == r2
  {
    assert RoleName(r1)[0] == RoleName(r2)[0];
    if r1.Detail? && r2.Detail? {
      assert RoleName(r1)[6..] == NatToString(r1.n);
      assert RoleName(r2)[6..] == NatToString(r2.n);
      NatToStringInjective(r1.n, r2.n);
    }
  }

  /** Two files of one product never share a name: the name before the
      extension's dot is the role, and roles are distinct. */
  lemma FileNameInjective(r1: Role, e1: string, r2: Role, e2: string)
    requires IsExtension(e1) && IsExtension(e2)
    requires FileName(r1, e1) == FileName(r2, e2)
    ensures r1 == r2
  {
    var n1, n2 := RoleName(r1), RoleName(r2);
    var f := FileName(r1, e1);
    RoleNameHasNoDot(r1);
    RoleNameHasNoDot(r2);
    // the first dot of the file name ends the role name
    forall i | 0 <= i < |n1| ensures f[i] != '.' {
      assert f[i] == n1[i] && n1[i] in n1;
    }
    forall i | 0 <= i < |n2| ensures f[i] != '.' {
      assert f[i] == n2[i] && n2[i] in n2;
    }
    assert f[|n1|] == '.' && f[|n2|] == '.';
    assert |n1| == |n2|;
    assert n1 == f[..|n1|] == n2;
    RoleNameInjective(r1, r2);
  }

  lemma RelPathInjective(pid: string, r1: Role, e1: string, r2: Role, e2: string)
    requires IsExtension(e1) && IsExtension(e2)
    requires RelPath(pid, r1, e1) == RelPath(pid, r2, e2)
    ensures r1 == r2
  {
    var k := |"images/" + pid + "/"|;
    assert RelPath(pid, r1, e1)[k..] == FileName(r1, e1);
    assert RelPath(pid, r2, e2)[k..] == FileName(r2, e2);
    FileNameInjective(r1, e1, r2, e2);
  }

  /** Every saved path is the path of a planned entry whose download succeeded. */
  lemma {:induction false} SavedPathsFrom(pid: string, plan: seq<Entry>, extOf: string -> string, fetchOk: string -> bool, p: string)
    requires p in SavedPaths(pid, plan, extOf, fetchOk)
    ensures exists i :: 0 <= i < |plan| && fetchOk(plan[i].url) && p == RelPath(pid, plan[i].role, extOf(plan[i].url))
  {
    var init := plan[..|plan| - 1];
    if p in SavedPaths(pid, init, extOf, fetchOk) {
      SavedPathsFrom(pid, init, extOf, fetchOk, p);
      var i :| 0 <= i < |init| && fetchOk(init[i].url) && p == RelPath(pid, init[i].role, extOf(init[i].url));
      assert plan[i] == init[i];
    }
  }

  /** No two downloads of one product are saved to the same path, so no
      saved image overwrites another. */
  lemma {:induction false} SavedPathsDistinct(pid: string, plan: seq<Entry>, extOf: string -> string, fetchOk: string -> bool)
    requires forall u :: IsExtension(extOf(u))
    requires forall i, j :: 0 <= i < j < |plan| ==> plan[i].role != plan[j].role
    ensures Distinct(SavedPaths(pid, plan, extOf, fetchOk))
  {
    if |plan| > 0 {
      var init := plan[..|plan| - 1];
      var e := plan[|plan| - 1];
      SavedPathsDistinct(pid, init, extOf, fetchOk);
      var prev := SavedPaths(pid, init, extOf, fetchOk);
      if fetchOk(e.url) {
        var q := RelPath(pid, e.role, extOf(e.url));
        forall k | 0 <= k < |prev| ensures prev[k] != q {
          var p := prev[k];
          SavedPathsFrom(pid, init, extOf, fetchOk, p);
          var i :| 0 <= i < |init| && fetchOk(init[i].url) && p == RelPath(pid, init[i].role, extOf(init[i].url));
          assert init[i].role != e.role;
          if p == q {
            RelPathInjective(pid, init[i].role, extOf(init[i].url), e.role, extOf(e.url));
          }
        }
      }
    }
  }

  /** A product id that cannot fake a `/detail` segment: no `/`, and not
      itself starting with `detail`. */
  predicate GoodProductId(pid: string) {
    '/' !in pid && !StartsWith(pid, "detail")
  }

  /** A product id read from `/product/<digits>` is good. */
  lemma DigitIdIsGood(pid: string)
    requires |pid| > 0 && AllDigits(pid)
    ensures GoodProductId(pid)
  {
    assert IsDigit(pid[0]);
    forall i | 0 <= i < |pid| ensures pid[i] != '/' {
      assert IsDigit(pid[i]);
    }
  }

  /** The only slashes of a main image's path are the two that separate
      its segments. */
  lemma MainPathSlashes(pid: string, x: string, i: nat)
    requires '/' !in pid && '/' !in x
    requires i < |"images/" + pid + "/main" + x| && i != 6 && i != 7 + |pid|
    ensures ("images/" + pid + "/main" + x)[i] != '/'
  {
    var s := "images/" + pid + "/main" + x;
    var j := 7 + |pid|;
    if i < 6 {
      assert s[i] == "images"[i];
    } else if 6 < i < j {
      assert s[i] == pid[i - 7] && pid[i - 7] in pid;
    } else if j < i < j + 5 {
      assert s[i] == "/main"[i - j];
    } else if j + 5 <= i {
      assert s[i] == x[i - j - 5] && x[i - j - 5] in x;
    }
  }

  /** A main image's path never contains `/detail`, whenever the product
      id is good. */
  lemma MainPathUnmarked(pid: string, x: string)
    requires GoodProductId(pid) && '/' !in x
    ensures !MarksDetail("images/" + pid + "/main" + x)
  {
    var s := "images/" + pid + "/main" + x;
    var j := 7 + |pid|;
    ContainsIff(s, DetailMarker);
    forall i | 0 <= i <= |s| ensures !StartsWith(s[i..], DetailMarker) {
      if i + 7 <= |s| {
        var w := s[i..i + 7];
        assert s[i..][..7] == w;
        if i != 6 && i != j {
          MainPathSlashes(pid, x, i);
          assert w[0] != '/';
        } else if i == 6 {
          if |pid| >= 6 {
            assert w[1..] == pid[..6];
          } else {
            assert w[1 + |pid|] == '/';
          }
        } else {
          assert w[1] == 'm';
        }
      }
    }
  }

  /** The `/detail` test on a saved path is exactly the test "this image has a
      detail role". */
  lemma MarksDetailIff(pid: string, r: Role, ext: string)
    requires GoodProductId(pid) && IsExtension(ext)
    ensures MarksDetail(RelPath(pid, r, ext)) <==> r.Detail?
  {
    var x := if ext == "" then ".jpg" else ext;
    var s := RelPath(pid, r, ext);
    if r.Detail? {
      var j := 7 + |pid|;
      assert s[j..j + 7] == DetailMarker;
      MarkedAt(s, j);
    } else {
      assert s == "images/" + pid + "/main" + x;
      MainPathUnmarked(pid, x);
    }
  }

  /** A path with `/detail` at offset `k` is marked. */
  lemma MarkedAt(s: string, k: nat)
    requires k + |DetailMarker| <= |s| && s[k..k + |DetailMarker|] == DetailMarker
    ensures MarksDetail(s)
  {
    ContainsIff(s, DetailMarker);
    assert s[k..][..|DetailMarker|] == DetailMarker;
  }

  /** `features` lists exactly the saved paths of the detail entries, in
      plan order: the substring test picks out the detail roles and nothing
      else, whenever the product id cannot fake a `/detail` segment. */
  lemma {:induction false} FeaturesAreDetailPaths(pid: string, plan: seq<Entry>, extOf: string -> string, fetchOk: string -> bool)
    requires GoodProductId(pid)
    requires forall u :: IsExtension(extOf(u))
    ensures Filter(SavedPaths(pid, plan, extOf, fetchOk), MarksDetail)
         == SavedPaths(pid, Filter(plan, IsDetailEntry), extOf, fetchOk)
  {
    if |plan| > 0 {
      var init := plan[..|plan| - 1];
      var e := plan[|plan| - 1];
      FeaturesAreDetailPaths(pid, init, extOf, fetchOk);
      assert init + [e] == plan;
      FilterSnoc(init, e, IsDetailEntry);
      var prev := SavedPaths(pid, init, extOf, fetchOk);
      var q := RelPath(pid, e.role, extOf(e.url));
      if fetchOk(e.url) {
        FilterSnoc(prev, q, MarksDetail);
        MarksDetailIff(pid, e.role, extOf(e.url));
      }
      var fi := Filter(init, IsDetailEntry);
      if IsDetailEntry(e) {
        assert (fi + [e])[..|fi|] == fi;
      }
    }
  }

  /** `image_path` is the main image's path exactly when the plan has a main
      image and its download succeeded, and "" otherwise. */
  lemma {:induction false} MainPathOfPlan(pid: string, plan: seq<Entry>, extOf: string -> string, fetchOk: string -> bool)
    requires forall k :: 1 <= k < |plan| ==> plan[k].role != Main
    ensures MainPath(pid, plan, extOf, fetchOk)
         == if |plan| > 0 && plan[0].role == Main && fetchOk(plan[0].url)
            then RelPath(pid, Main, extOf(plan[0].url)) else ""
  {
    if |plan| > 1 {
      var init := plan[..|plan| - 1];
      MainPathOfPlan(pid, init, extOf, fetchOk);
      assert init[0] == plan[0];
    }
  }

  /** For an actual plan: the main path is non-empty only when there is a
      main URL and its download succeeded. */
  lemma MainPathSpec(pid: string, og: string, details: seq<string>, extOf: string -> string, fetchOk: string -> bool)
    requires Distinct(details)
    ensures var main := MainUrl(og, details);
            MainPath(pid, Plan(og, details), extOf, fetchOk)
            == if main != "" && fetchOk(main) then RelPath(pid, Main, extOf(main)) else ""
  {
    PlanSpec(og, details);
    MainPathOfPlan(pid, Plan(og, details), extOf, fetchOk);
  }
}
