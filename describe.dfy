/** generate_description.py: the image-token estimate, reading the image list
    back from the `features` column, the token budget of
    `prepare_image_messages`, and the processed range of `main`. The language
    model, the tokenizer, PIL and the file system are parameters. */
module Describe {
  import opened Text
  import opened Seqs
  import opened ImagePlan
  import opened ProductDetail

  // --------------------------------------------------------- token estimate

  const TileSize: nat := 512
  const BaseTokens: nat := 85
  const TileTokens: nat := 170
  const UnreadableTokens: nat := 1000

  /** `(n + 511) // 512`: the fewest 512-pixel tiles that cover `n` pixels. */
  function Tiles(n: nat): (t: nat)
    ensures t * TileSize >= n
    ensures t > 0 ==> (t - 1) * TileSize < n
  {
    (n + 511) / 512
  }

  /** No smaller tile count covers `n` pixels. */
  lemma TilesLeast(n: nat, t: nat)
    requires t * TileSize >= n
    ensures t >= Tiles(n)
  {
  }

  /** `estimate_image_tokens`: `dims` is the image size PIL reads, `None`
      when the image cannot be opened. */
  function EstimateImageTokens(dims: Option<(nat, nat)>): (tokens: nat)
    ensures tokens >= BaseTokens
    ensures dims.None? ==> tokens == UnreadableTokens
    ensures dims.Some? && dims.value.0 <= TileSize && dims.value.1 <= TileSize ==> tokens == BaseTokens
    ensures dims.Some? && !(dims.value.0 <= TileSize && dims.value.1 <= TileSize) ==>
              tokens == Tiles(dims.value.0) * Tiles(dims.value.1) * TileTokens + BaseTokens
  {
    match dims
    case None => UnreadableTokens
    case Some((w, h)) =>
      if w <= 512 && h <= 512 then BaseTokens
      else Tiles(w) * Tiles(h) * TileTokens + BaseTokens
  }

  /** For a real image (both sides positive) the estimate is the base cost
      exactly when the image fits one tile; otherwise every covering tile
      adds 170 tokens, at least two tiles' worth. */
  lemma EstimateSpec(w: nat, h: nat)
    requires w > 0 && h > 0
    ensures EstimateImageTokens(Some((w, h))) == BaseTokens <==> w <= TileSize && h <= TileSize
    ensures !(w <= TileSize && h <= TileSize) ==> EstimateImageTokens(Some((w, h))) >= BaseTokens + 2 * TileTokens
  {
    if !(w <= TileSize && h <= TileSize) {
      var tw, th := Tiles(w), Tiles(h);
      assert tw >= 1 && th >= 1;
      assert tw >= 2 || th >= 2;
      MulLe(1, th, tw);
      MulLe(1, tw, th);
      assert tw * th >= 2;
      MulLe(2, tw * th, TileTokens);
    }
  }

  /** A larger image is never estimated cheaper. */
  lemma EstimateMonotone(w1: nat, h1: nat, w2: nat, h2: nat)
    requires w1 <= w2 && h1 <= h2
    ensures EstimateImageTokens(Some((w1, h1))) <= EstimateImageTokens(Some((w2, h2)))
  {
    if !(w1 <= TileSize && h1 <= TileSize) {
      var a, b, c, d := Tiles(w1), Tiles(h1), Tiles(w2), Tiles(h2);
      TilesLeast(w1, c);
      TilesLeast(h1, d);
      MulLe(a, c, b);
      MulLe(b, d, c);
      assert a * b <= c * d;
      MulLe(a * b, c * d, TileTokens);
    }
  }

  // -------------------------------------------------------- features column

  /** `[p.strip() for p in parts if p.strip()]` */
  function Pieces(parts: seq<string>): (paths: seq<string>)
    ensures forall k :: 0 <= k < |paths| ==> paths[k] != "" && IsStripped(paths[k])
    ensures (forall j :: 0 <= j < |parts| ==> ';' !in parts[j]) ==> forall k :: 0 <= k < |paths| ==> ';' !in paths[k]
    decreases |parts|
  {
    if |parts| == 0 then []
    else
      var p := Strip(parts[0]);
      StripIsStripped(parts[0]);
      StripKeepsChars(parts[0]);
      var rest := Pieces(parts[1..]);
      assert (forall j :: 0 <= j < |parts| ==> ';' !in parts[j]) ==> forall j :: 0 <= j < |parts[1..]| ==> ';' !in parts[1..][j];
      if p != "" then [p] + rest else rest
  }

  /** One part of the split at a time. */
  lemma PiecesStep(parts: seq<string>)
    requires |parts| > 0
    ensures Pieces(parts) == (if Strip(parts[0]) != "" then [Strip(parts[0])] else []) + Pieces(parts[1..])
  {
  }

  /** The image list of `generate_description`: `None` is a missing (NaN)
      cell. Every path read is non-empty, stripped and free of `;`. */
  function ParseFeatures(cell: Option<string>): (paths: seq<string>)
    ensures cell.None? || cell == Some("") ==> paths == []
    ensures forall k :: 0 <= k < |paths| ==> CleanPath(paths[k])
  {
    if cell.None? || cell.value == "" then [] else Pieces(Split(cell.value, ';'))
  }

  /** A path the `"; "` join and the `;` split carry unchanged. */
  predicate CleanPath(p: string) {
    p != "" && IsStripped(p) && ';' !in p
  }

  predicate AllSpaces(s: string) {
    forall i :: 0 <= i < |s| ==> IsSpace(s[i])
  }

  lemma StripKeepsChars(s: string)
    ensures forall c :: c in Strip(s) ==> c in s
  {
    TrimStartSuffix(s);
    TrimEndPrefix(TrimStart(s));
  }

  lemma {:induction false} StripAfterSpaces(pre: string, s: string)
    requires AllSpaces(pre)
    ensures Strip(pre + s) == Strip(s)
    decreases |pre|
  {
    if |pre| > 0 {
      assert pre + s == [pre[0]] + (pre[1..] + s);
      assert IsSpace(pre[0]);
      StripSkipsLeadingSpace(pre[0], pre[1..] + s);
      assert forall i :: 0 <= i < |pre[1..]| ==> pre[1..][i] == pre[i + 1];
      StripAfterSpaces(pre[1..], s);
      assert Strip(pre + s) == Strip(pre[1..] + s);
    } else {
      assert pre + s == s;
    }
  }

  lemma {:induction false} JoinRoundTripFrom(pre: string, paths: seq<string>)
    requires |paths| > 0 && AllSpaces(pre)
    requires forall k :: 0 <= k < |paths| ==> CleanPath(paths[k])
    ensures Pieces(Split(pre + Join(paths, "; "), ';')) == paths
    decreases |paths|
  {
    var p := paths[0];
    StripAfterSpaces(pre, p);
    StripIsStripped(p);
    assert ';' !in pre + p by {
      forall i | 0 <= i < |pre| ensures pre[i] != ';' {
        assert IsSpace(pre[i]);
      }
    }
    if |paths| == 1 {
      SplitNoSeparator(pre + p, ';');
      assert [pre + p][1..] == [];
    } else {
      var rest := paths[1..];
      assert pre + Join(paths, "; ") == (pre + p) + [';'] + (" " + Join(rest, "; "));
      SplitAtFirst(pre + p, ';', " " + Join(rest, "; "));
      var parts := [pre + p] + Split(" " + Join(rest, "; "), ';');
      assert parts[1..] == Split(" " + Join(rest, "; "), ';');
      assert IsSpace(' ');
      JoinRoundTripFrom(" ", rest);
    }
  }

  /** Reading the image list back from a `"; "`-joined list gives that list,
      as long as each path is non-empty, stripped and free of `;`. */
  lemma JoinRoundTrip(paths: seq<string>)
    requires forall k :: 0 <= k < |paths| ==> CleanPath(paths[k])
    ensures ParseFeatures(Some(Join(paths, "; "))) == paths
  {
    if |paths| > 0 {
      JoinRoundTripFrom("", paths);
      assert "" + Join(paths, "; ") == Join(paths, "; ");
      if |paths| > 1 {
        assert Join(paths, "; ")[0] == paths[0][0];
      }
    }
  }

  /** The crawler's saved paths are clean when the product id and the URL
      extension hold no `;` and the extension does not end in whitespace. */
  predicate CleanExtension(e: string) {
    ';' !in e && (e == "" || !IsSpace(e[|e| - 1]))
  }

  lemma CleanRelPath(pid: string, r: Role, ext: string)
    requires ';' !in pid && CleanExtension(ext)
    ensures CleanPath(RelPath(pid, r, ext))
  {
    var name := RoleName(r);
    assert ';' !in name by {
      if r.Detail? {
        var digits := NatToString(r.n);
        forall i | 0 <= i < |digits| ensures digits[i] != ';' {
          assert IsDigit(digits[i]);
        }
      }
    }
    var s := RelPath(pid, r, ext);
    assert s[0] == 'i';
    assert s[|s| - 1] == if ext == "" then 'g' else ext[|ext| - 1];
  }

  ghost predicate ExtensionsClean(env: Env) {
    forall u :: CleanExtension(env.extOf(u))
  }

  /** The image list the describer reads from a crawled row is exactly the
      list of the row's saved detail-image paths, in plan order. */
  lemma RowImagesRoundTrip(env: Env, url: string, p: Browser.Page, categoryHint: string, themeHint: string)
    requires ExtensionsWellFormed(env) && ExtensionsClean(env)
    requires var pid := Fields.GuessProductId(url, env.slugOf(url));
             GoodProductId(pid) && ';' !in pid
    requires DetailRow(env, url, p, categoryHint, themeHint).Some?
    ensures var metas := Browser.Find(p, OgImageSelector).elements;
            var og := if |metas| > 0 then Browser.Attr(metas[0], "content") else "";
            var pid := Fields.GuessProductId(url, env.slugOf(url));
            ParseFeatures(Some(DetailRow(env, url, p, categoryHint, themeHint).value.features))
            == SavedPaths(pid, Filter(PlanOf(og, p), IsDetailEntry), env.extOf, env.fetchOk)
  {
    var metas := Browser.Find(p, OgImageSelector).elements;
    var og := if |metas| > 0 then Browser.Attr(metas[0], "content") else "";
    var pid := Fields.GuessProductId(url, env.slugOf(url));
    FeaturesSpec(env, url, p, categoryHint, themeHint);
    var plan := Filter(PlanOf(og, p), IsDetailEntry);
    var paths := SavedPaths(pid, plan, env.extOf, env.fetchOk);
    forall k | 0 <= k < |paths| ensures CleanPath(paths[k]) {
      SavedPathsFrom(pid, plan, env.extOf, env.fetchOk, paths[k]);
      var i :| 0 <= i < |plan| && env.fetchOk(plan[i].url) && paths[k] == RelPath(pid, plan[i].role, env.extOf(plan[i].url));
      CleanRelPath(pid, plan[i].role, env.extOf(plan[i].url));
    }
    JoinRoundTrip(paths);
  }

  // --------------------------------------------------------------- suffixes

  const OutDir := "dataset"

  /** `os.path.join(OUT_DIR, path)`: an absolute path replaces the directory. */
  function FullPath(path: string): string {
    if |path| > 0 && path[0] == '/' then path else OutDir + "/" + path
  }

  /** `PurePath(path).suffix`, read from the end of `path`: `tail` holds
      the characters already passed, none of them a `.` or a `/`. The suffix
      starts at the last `.` of the file name, provided that dot is neither
      the name's first nor its last character. */
  function SuffixFrom(path: string, tail: string): string
    decreases |path|
  {
    if |path| == 0 then ""
    else
      var c := path[|path| - 1];
      if c == '/' then ""
      else if c == '.' then
        if |path| >= 2 && path[|path| - 2] != '/' && |tail| > 0 then [c] + tail else ""
      else SuffixFrom(path[..|path| - 1], [c] + tail)
  }

  function Suffix(path: string): string {
    SuffixFrom(path, "")
  }

  /** A suffix is empty, or a dot followed by at least one character, with
      no other dot and no `/`. */
  lemma {:induction false} SuffixFromShape(path: string, tail: string)
    requires '.' !in tail && '/' !in tail
    ensures var ext := SuffixFrom(path, tail);
            ext == "" || (|ext| >= 2 && ext[0] == '.' && '.' !in ext[1..] && '/' !in ext)
    decreases |path|
  {
    if |path| > 0 {
      var c := path[|path| - 1];
      if c == '.' {
        assert ([c] + tail)[1..] == tail;
      } else if c != '/' {
        SuffixFromShape(path[..|path| - 1], [c] + tail);
      }
    }
  }

  lemma SuffixShape(path: string)
    ensures var ext := Suffix(path);
            ext == "" || (|ext| >= 2 && ext[0] == '.' && '.' !in ext[1..] && '/' !in ext)
  {
    SuffixFromShape(path, "");
  }

  /** Characters other than `.` and `/` at the end are passed over. */
  lemma {:induction false} SuffixFromSkips(s: string, t: string, tail: string)
    requires '.' !in t && '/' !in t
    ensures SuffixFrom(s + t, tail) == SuffixFrom(s, t + tail)
    decreases |t|
  {
    if |t| > 0 {
      var st := s + t;
      assert st[|st| - 1] == t[|t| - 1];
      assert st[..|st| - 1] == s + t[..|t| - 1];
      assert t[..|t| - 1] + ([t[|t| - 1]] + tail) == t + tail;
      SuffixFromSkips(s, t[..|t| - 1], [t[|t| - 1]] + tail);
    } else {
      assert s + t == s && t + tail == tail;
    }
  }

  /** `os.path.splitext` leaves exactly one dot in a non-empty extension. */
  predicate SingleDot(e: string) {
    e == "" || '.' !in e[1..]
  }

  /** A name that ends in a dotted extension, after a character that is
      not `/`, has that extension as its suffix when the extension has a
      character after the dot, and no suffix otherwise. */
  lemma SuffixOfDotted(name: string, ext: string)
    requires |name| > 0 && name[|name| - 1] != '/'
    requires |ext| > 0 && ext[0] == '.' && '.' !in ext[1..] && '/' !in ext
    ensures Suffix(name + ext) == if |ext| >= 2 then ext else ""
  {
    var before := name + [ext[0]];
    var after := ext[1..];
    assert name + ext == before + after;
    assert '/' !in after by {
      forall k | 0 <= k < |after| ensures after[k] != '/' {
        assert after[k] == ext[k + 1];
      }
    }
    SuffixFromSkips(before, after, "");
    assert after + "" == after;
    assert before[..|before| - 1] == name;
    assert [ext[0]] + after == ext;
  }

  /** The describer reads back the extension the crawler saved an image
      with: `.jpg` for an image saved without one, the extension itself when
      it has a character after the dot, and none for a bare `.`. */
  lemma RelPathSuffix(pid: string, r: Role, ext: string)
    requires IsExtension(ext) && SingleDot(ext)
    ensures Suffix(FullPath(RelPath(pid, r, ext))) ==
      if ext == "" then ".jpg" else if |ext| >= 2 then ext else ""
  {
    var tail := if ext == "" then ".jpg" else ext;
    var roleName := RoleName(r);
    RoleNameHasNoDot(r);
    var name := OutDir + "/" + "images/" + pid + "/" + roleName;
    assert FullPath(RelPath(pid, r, ext)) == name + tail;
    assert |roleName| > 0 && roleName[|roleName| - 1] in roleName;
    assert name[|name| - 1] == roleName[|roleName| - 1];
    assert tail[1..] == ".jpg"[1..] || tail == ext;
    SuffixOfDotted(name, tail);
  }

  // ------------------------------------------------------------ token budget

  const MaxInputTokens: int := 128000
  const ReservedTokens: int := 500

  /** What the file system and PIL say about one file: whether it exists, its
      size when PIL can read it, and whether base64 encoding succeeds. */
  datatype FileInfo = FileInfo(present: bool, dims: Option<(nat, nat)>, encodes: bool)

  /** What the loop reads about one listed path: the full path, its
      lower-cased suffix, and the file facts. */
  datatype ImageFile = ImageFile(full: string, ext: string, info: FileInfo)

  function FileOf(path: string, fs: string -> FileInfo): ImageFile {
    var full := FullPath(Strip(path));
    ImageFile(full, Lower(Suffix(full)), fs(full))
  }

  function Files(paths: seq<string>, fs: string -> FileInfo): (files: seq<ImageFile>)
    ensures |files| == |paths|
  {
    seq(|paths|, i requires 0 <= i < |paths| => FileOf(paths[i], fs))
  }

  /** One image part of the request; the base64 data stands as the file's path. */
  datatype ImageMessage = ImageMessage(mime: string, path: string)

  predicate AcceptedSuffix(ext: string) {
    ext == ".jpg" || ext == ".jpeg" || ext == ".png"
  }

  function MimeType(ext: string): string {
    if ext == ".jpg" || ext == ".jpeg" then "image/jpeg" else "image/png"
  }

  function MessageOf(f: ImageFile): ImageMessage {
    ImageMessage(MimeType(f.ext), f.full)
  }

  /** `available_tokens` */
  function Available(textTokens: nat): int {
    MaxInputTokens - textTokens - ReservedTokens
  }

  /** The messages, the tokens used, and whether the loop stopped early. */
  datatype Budgeted = Budgeted(messages: seq<ImageMessage>, used: nat, stopped: bool)

  /** The loop of `prepare_image_messages` from `used` tokens on: a missing
      file or a suffix other than `.jpg`, `.jpeg`, `.png` is skipped; the
      first image whose estimate overflows the budget stops the loop; an image
      that fails to encode adds nothing. */
  function Budget(files: seq<ImageFile>, used: nat, avail: int): Budgeted
    decreases |files|
  {
    if |files| == 0 then Budgeted([], used, false)
    else
      var f := files[0];
      if !f.info.present || !AcceptedSuffix(f.ext) then Budget(files[1..], used, avail)
      else
        var t := EstimateImageTokens(f.info.dims);
        if used + t > avail then Budgeted([], used, true)
        else if f.info.encodes then
          var rest := Budget(files[1..], used + t, avail);
          Budgeted([MessageOf(f)] + rest.messages, rest.used, rest.stopped)
        else Budget(files[1..], used, avail)
  }

  /** `prepare_image_messages(image_paths, text_prompt)`, with the prompt's
      token count given: read what the loop needs of each path, then run the
      budget loop. */
  method PrepareImageMessages(paths: seq<string>, fs: string -> FileInfo, textTokens: nat)
    returns (messages: seq<ImageMessage>)
    ensures messages == Budget(Files(paths, fs), 0, Available(textTokens)).messages
  {
    var files := seq(|paths|, i requires 0 <= i < |paths| => FileOf(paths[i], fs));
    messages := SpendBudget(files, Available(textTokens));
  }

  /** The loop of `prepare_image_messages` with its `continue`s and `break`. */
  method SpendBudget(files: seq<ImageFile>, avail: int) returns (messages: seq<ImageMessage>)
    ensures messages == Budget(files, 0, avail).messages
  {
    var used: nat := 0;
    messages := [];
    var i := 0;
    while i < |files|
      invariant 0 <= i <= |files|
      invariant Budget(files, 0, avail).messages == messages + Budget(files[i..], used, avail).messages
    {
      var f := files[i];
      assert files[i..][0] == f && files[i..][1..] == files[i + 1..];
      if !f.info.present || !AcceptedSuffix(f.ext) {
        assert Budget(files[i..], used, avail) == Budget(files[i + 1..], used, avail);
        i := i + 1;
        continue;
      }
      var t := EstimateImageTokens(f.info.dims);
      if used + t > avail {
        assert Budget(files[i..], used, avail).messages == [];
        assert messages + [] == messages;
        return;
      }
      if f.info.encodes {
        assert Budget(files[i..], used, avail).messages
            == [MessageOf(f)] + Budget(files[i + 1..], used + t, avail).messages;
        messages := messages + [MessageOf(f)];
        used := used + t;
      } else {
        assert Budget(files[i..], used, avail) == Budget(files[i + 1..], used, avail);
      }
      i := i + 1;
    }
    assert messages + [] == messages;
  }

  /** The messages of every usable image (present, accepted suffix, encodes),
      in input order. */
  function UsableMessages(files: seq<ImageFile>): seq<ImageMessage>
    decreases |files|
  {
    if |files| == 0 then []
    else
      var f := files[0];
      var rest := UsableMessages(files[1..]);
      if f.info.present && AcceptedSuffix(f.ext) && f.info.encodes then [MessageOf(f)] + rest else rest
  }

  /** The budget holds: tokens are only ever added within the budget, so
      they stay within it unless none were used; there are never more
      messages than files, every message is an existing image with an
      accepted suffix and the matching MIME type, the messages are the
      usable images in order up to the one that overflowed, and a loop that
      did not stop took every usable image. */
  lemma {:induction false} BudgetSpec(files: seq<ImageFile>, used: nat, avail: int)
    ensures var r := Budget(files, used, avail);
            r.used >= used
            && ((used == 0 || used <= avail) ==> (r.used == 0 || r.used <= avail))
            && |r.messages| <= |files|
            && (!r.stopped ==> r.messages == UsableMessages(files))
    ensures Budget(files, used, avail).messages <= UsableMessages(files)
    ensures forall m :: m in Budget(files, used, avail).messages ==>
      exists f :: f in files && f.info.present && f.info.encodes && AcceptedSuffix(f.ext) && m == MessageOf(f)
    decreases |files|
  {
    if |files| > 0 {
      var t := EstimateImageTokens(files[0].info.dims);
      BudgetSpec(files[1..], used, avail);
      BudgetSpec(files[1..], used + t, avail);
      forall m | m in Budget(files, used, avail).messages
        ensures exists f :: f in files && f.info.present && f.info.encodes && AcceptedSuffix(f.ext) && m == MessageOf(f)
      {
        if m != MessageOf(files[0]) {
          var f :| f in files[1..] && f.info.present && f.info.encodes && AcceptedSuffix(f.ext) && m == MessageOf(f);
          assert f in files;
        }
      }
    }
  }

  /** `.jpg` and `.jpeg` are sent as JPEG, `.png` as PNG. */
  lemma MimeSpec(ext: string)
    requires AcceptedSuffix(ext)
    ensures MimeType(ext) == "image/jpeg" <==> ext == ".jpg" || ext == ".jpeg"
    ensures MimeType(ext) == "image/png" <==> ext == ".png"
  {
  }

  /** The loop over `files + extra`: once it stops inside `files`, `extra` is
      never looked at; otherwise it goes on into `extra` with the tokens
      used so far. */
  lemma {:induction false} BudgetAppend(files: seq<ImageFile>, extra: seq<ImageFile>, used: nat, avail: int)
    ensures var r := Budget(files, used, avail);
            var s := Budget(extra, r.used, avail);
            Budget(files + extra, used, avail)
            == if r.stopped then r else Budgeted(r.messages + s.messages, s.used, s.stopped)
    decreases |files|
  {
    if |files| == 0 {
      assert files + extra == extra;
    } else {
      assert (files + extra)[1..] == files[1..] + extra;
      var t := EstimateImageTokens(files[0].info.dims);
      BudgetAppend(files[1..], extra, used, avail);
      BudgetAppend(files[1..], extra, used + t, avail);
      var rest := Budget(files[1..], used + t, avail);
      var s := Budget(extra, rest.used, avail);
      assert [MessageOf(files[0])] + (rest.messages + s.messages) == ([MessageOf(files[0])] + rest.messages) + s.messages;
    }
  }

  // ------------------------------------------------------------ the request

  /** The images sent with one product's prompt. */
  function RequestImages(features: Option<string>, fs: string -> FileInfo, textTokens: nat): seq<ImageMessage> {
    Budget(Files(ParseFeatures(features), fs), 0, Available(textTokens)).messages
  }

  /** The image list of `generate_description`, built by the comprehension's loop. */
  method ReadFeatures(features: Option<string>) returns (paths: seq<string>)
    ensures paths == ParseFeatures(features)
  {
    paths := [];
    if features.Some? && features.value != "" {
      paths := StripPieces(Split(features.value, ';'));
    }
  }

  /** The comprehension over the split parts. */
  method StripPieces(parts: seq<string>) returns (paths: seq<string>)
    ensures paths == Pieces(parts)
  {
    paths := [];
    for j := 0 to |parts|
      invariant paths + Pieces(parts[j..]) == Pieces(parts)
    {
      var piece := Strip(parts[j]);
      PiecesStep(parts[j..]);
      assert parts[j..][0] == parts[j] && parts[j..][1..] == parts[j + 1..];
      if piece != "" {
        paths := paths + [piece];
      } else {
        assert Pieces(parts[j..]) == Pieces(parts[j + 1..]);
      }
    }
    assert parts[|parts|..] == [];
    assert paths + [] == paths;
  }

  /** The image part of `generate_description`: parse the list, then apply
      the budget. */
  method PrepareRequest(features: Option<string>, fs: string -> FileInfo, textTokens: nat)
    returns (images: seq<ImageMessage>)
    ensures images == RequestImages(features, fs, textTokens)
  {
    var paths := ReadFeatures(features);
    images := PrepareImageMessages(paths, fs, textTokens);
  }

  // -------------------------------------------------------- range and column

  const Start: int := 0
  const End: Option<int> := Some(1)

  datatype RangeCheck = InRange(start: nat, end: nat) | BadStart | BadEnd

  /** The checks of `main` on `START` and `END` (`None` meaning every row)
      against the number of rows. */
  function CheckRange(start: int, end: Option<int>, rows: nat): (r: RangeCheck)
    ensures var e := if end.None? then rows else end.value;
            r.InRange? <==> 0 <= start < rows && start <= e <= rows
    ensures r.BadStart? <==> start < 0 || start >= rows
    ensures r.InRange? ==> r.start == start && r.end == (if end.None? then rows else end.value)
  {
    var e := if end.None? then rows else end.value;
    if start < 0 || start >= rows then BadStart
    else if e < start || e > rows then BadEnd
    else InRange(start, e)
  }

  /** With the script's `START = 0` and `END = 1`, only the first row is
      processed, and a file without rows is refused. */
  lemma ConfiguredRange(rows: nat)
    ensures CheckRange(Start, End, rows) == if rows > 0 then InRange(0, 1) else BadStart
  {
  }

  /** The columns of one CSV row that the describer reads; a `name` cell
      that pandas reads as missing (an empty name in the crawler's CSV) is
      `None`. */
  datatype Product = Product(name: Option<string>, category: string, features: Option<string>)

  /** The `description` column before any row is processed: the file's own
      when it has one, otherwise all empty. */
  function InitialColumn(existing: Option<seq<string>>, rows: nat): (column: seq<string>)
    requires existing.Some? ==> |existing.value| == rows
    ensures |column| == rows
    ensures existing.None? ==> forall i :: 0 <= i < rows ==> column[i] == ""
  {
    if existing.Some? then existing.value else seq(rows, i => "")
  }

  /** `generate_description` for one row: the model's answer to the product
      and the images its `features` cell names, within the budget its prompt
      leaves. */
  function RowDescription(p: Product, fs: string -> FileInfo, promptTokens: Product -> nat,
                          llm: (Product, seq<ImageMessage>) -> string): string {
    llm(p, RequestImages(p.features, fs, promptTokens(p)))
  }

  method DescribeRow(p: Product, fs: string -> FileInfo, promptTokens: Product -> nat,
                     llm: (Product, seq<ImageMessage>) -> string)
    returns (description: string)
    ensures description == RowDescription(p, fs, promptTokens, llm)
  {
    var images := PrepareRequest(p.features, fs, promptTokens(p));
    description := llm(p, images);
  }

  /** The output column, a refused range, or the row whose missing name
      made the progress message raise (nothing is written then). */
  datatype Described = Described(column: seq<string>) | RangeError(check: RangeCheck) | Aborted(row: nat)

  /** `main`: check the range, then write the description of each row in
      `[start, end)` into the output column, in place. The progress message
      slices the row's name, which raises for a missing name and ends `main`
      before the file is written. The language model (`llm`) answers from
      the product and its images; `promptTokens` is the tokenizer's count for
      the product's prompt. */
  method DescribeRange(products: seq<Product>, existing: Option<seq<string>>, start: int, end: Option<int>,
                       fs: string -> FileInfo, promptTokens: Product -> nat,
                       llm: (Product, seq<ImageMessage>) -> string)
    returns (out: Described)
    requires existing.Some? ==> |existing.value| == |products|
    ensures out.RangeError? <==> !CheckRange(start, end, |products|).InRange?
    ensures out.RangeError? ==> out.check == CheckRange(start, end, |products|)
    ensures var range := CheckRange(start, end, |products|);
            out.Aborted? <==> range.InRange? && exists i :: range.start <= i < range.end && products[i].name.None?
    ensures var range := CheckRange(start, end, |products|);
            out.Aborted? ==> range.InRange? && range.start <= out.row < range.end && products[out.row].name.None?
                             && forall i :: range.start <= i < out.row ==> products[i].name.Some?
    ensures out.Described? ==>
      var range := CheckRange(start, end, |products|);
      var init := InitialColumn(existing, |products|);
      |out.column| == |products|
      && forall i :: 0 <= i < |products| ==>
           out.column[i] == if range.start <= i < range.end
                            then RowDescription(products[i], fs, promptTokens, llm)
                            else init[i]
  {
    var range := CheckRange(start, end, |products|);
    if !range.InRange? {
      return RangeError(range);
    }
    out := FillColumn(products, InitialColumn(existing, |products|), range.start, range.end, fs, promptTokens, llm);
  }

  /** The loop of `main` over the rows `[lo, hi)`: each row's description
      goes into its place in `init`, until a row without a name stops it. */
  method FillColumn(products: seq<Product>, init: seq<string>, lo: nat, hi: nat,
                    fs: string -> FileInfo, promptTokens: Product -> nat,
                    llm: (Product, seq<ImageMessage>) -> string)
    returns (out: Described)
    requires lo <= hi <= |products| && |init| == |products|
    ensures !out.RangeError?
    ensures out.Aborted? <==> exists i :: lo <= i < hi && products[i].name.None?
    ensures out.Aborted? ==> lo <= out.row < hi && products[out.row].name.None?
                             && forall i :: lo <= i < out.row ==> products[i].name.Some?
    ensures out.Described? ==>
      |out.column| == |products|
      && forall i :: 0 <= i < |products| ==>
           out.column[i] == if lo <= i < hi then RowDescription(products[i], fs, promptTokens, llm) else init[i]
  {
    var column := init;
    for idx := lo to hi
      invariant |column| == |products|
      invariant forall i :: lo <= i < idx ==> products[i].name.Some?
      invariant forall i :: 0 <= i < |column| ==>
        column[i] == if lo <= i < idx then RowDescription(products[i], fs, promptTokens, llm) else init[i]
    {
      if products[idx].name.None? {
        assert lo <= idx < hi && products[idx].name.None?;
        return Aborted(idx);
      }
      var description := DescribeRow(products[idx], fs, promptTokens, llm);
      column := column[idx := description];
    }
    assert forall i :: lo <= i < hi ==> products[i].name.Some?;
    return Described(column);
  }
}
