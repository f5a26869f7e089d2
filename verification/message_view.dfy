/**
 * The message bubble: which content a message renders as, decided from its
 * normalised fields, and the string helpers that decision uses — the class
 * list joiner, the first-link detector, the legacy image test, the document
 * file name cleanup and the file icon category. The DOM itself is not
 * modelled; `Content` records what is shown and with which link.
 */
module MessageView {
  import opened Wrappers
  import opened JsText
  import opened ChatService

  // -------------------------------------------------------------- classNames

  /** The truthy arguments, in order. */
  function TruthyParts(args: seq<Option<string>>): (parts: seq<string>)
    ensures |parts| <= |args|
    ensures forall i :: 0 <= i < |parts| ==> parts[i] != ""
  {
    if |args| == 0 then [] else (if Truthy(args[0]) then [args[0].value] else []) + TruthyParts(args[1..])
  }

  /** `classNames(...classes)`: falsy arguments are dropped and the rest joined with single spaces. */
  function ClassNames(args: seq<Option<string>>): string {
    Join(TruthyParts(args), " ")
  }

  lemma {:induction false} TruthyPartsAppend(args: seq<Option<string>>, a: Option<string>)
    ensures TruthyParts(args + [a]) == TruthyParts(args) + (if Truthy(a) then [a.value] else [])
  {
    if |args| > 0 {
      TruthyPartsAppend(args[1..], a);
      assert (args + [a])[1..] == args[1..] + [a];
    } else {
      assert args + [a] == [a];
    }
  }

  lemma {:induction false} JoinAppend(parts: seq<string>, x: string, sep: string)
    ensures Join(parts + [x], sep) == if parts == [] then x else Join(parts, sep) + sep + x
  {
    if |parts| > 1 {
      JoinAppend(parts[1..], x, sep);
      assert (parts + [x])[1..] == parts[1..] + [x];
    } else if |parts| == 1 {
      assert (parts + [x])[1..] == [x];
    }
  }

  /**
   * The class list grows one argument at a time: a falsy argument adds
   * nothing, a truthy one is added after a single space (or alone, first).
   */
  lemma ClassNamesAppend(args: seq<Option<string>>, a: Option<string>)
    ensures !Truthy(a) ==> ClassNames(args + [a]) == ClassNames(args)
    ensures Truthy(a) ==> ClassNames(args + [a]) ==
                            (if TruthyParts(args) == [] then a.value else ClassNames(args) + " " + a.value)
  {
    TruthyPartsAppend(args, a);
    if Truthy(a) {
      JoinAppend(TruthyParts(args), a.value, " ");
    } else {
      assert TruthyParts(args) + [] == TruthyParts(args);
    }
  }

  /** The class list is empty exactly when no argument is truthy. */
  lemma {:induction false} ClassNamesEmpty(args: seq<Option<string>>)
    ensures ClassNames(args) == "" <==> forall i :: 0 <= i < |args| ==> !Truthy(args[i])
  {
    if |args| > 0 {
      ClassNamesEmpty(args[1..]);
      assert forall i :: 1 <= i < |args| ==> args[i] == args[1..][i - 1];
      var rest := TruthyParts(args[1..]);
      if Truthy(args[0]) {
        assert TruthyParts(args) == [args[0].value] + rest;
        if |rest| > 0 {
          assert ([args[0].value] + rest)[1..] == rest;
        }
      } else {
        assert TruthyParts(args) == rest;
      }
    }
  }

  // ---------------------------------------------------------- normalisation

  /** The fields of a message object the bubble reads, under both the backend's and the legacy names. */
  datatype MessageProps = MessageProps(
    messageTypeSnake: Option<string>, messageTypeCamel: Option<string>,
    text: Option<string>, message: Option<string>,
    mediaUrlSnake: Option<string>, mediaUrlCamel: Option<string>,
    caption: Option<string>,
    fileName: Option<string>, filename: Option<string>, originalFilename: Option<string>,
    thumbnailUrl: Option<string>, mimeType: Option<string>)

  /** The props of a record the conversation view keeps; it never carries the camel-case or file fields. */
  function PropsOf(m: ChatMessage): MessageProps {
    MessageProps(m.messageType, None, None, m.message, m.mediaUrl, None, m.caption, None, None, None, None, None)
  }

  datatype Normalized = Normalized(messageType: string, text: string, mediaUrl: Option<string>, caption: Option<string>)

  /**
   * Field normalisation: the type falls back on `||` (so an empty type is
   * "text"), while the text, the link and the caption fall back on `??`
   * (only a missing value falls through; an empty text stays empty).
   */
  function Normalize(p: MessageProps): (n: Normalized)
    ensures Truthy(p.messageTypeSnake) ==> n.messageType == p.messageTypeSnake.value
    ensures !Truthy(p.messageTypeSnake) && Truthy(p.messageTypeCamel) ==> n.messageType == p.messageTypeCamel.value
    ensures !Truthy(p.messageTypeSnake) && !Truthy(p.messageTypeCamel) ==> n.messageType == "text"
    ensures p.text.Some? ==> n.text == p.text.value
    ensures p.text.None? && p.message.Some? ==> n.text == p.message.value
    ensures p.text.None? && p.message.None? ==> n.text == ""
    ensures n.mediaUrl == (if p.mediaUrlSnake.Some? then p.mediaUrlSnake else p.mediaUrlCamel)
    ensures n.caption == p.caption
  {
    Normalized(
      messageType := OrElse(Or(p.messageTypeSnake, p.messageTypeCamel), "text"),
      text := Coalesce(p.text, p.message).GetOr(""),
      mediaUrl := Coalesce(Coalesce(p.mediaUrlSnake, p.mediaUrlCamel), None),
      caption := Coalesce(p.caption, None))
  }

  // ------------------------------------------------------------- first link

  /** The pattern `https?:\/\/\S+` matches starting at index `i`. */
  predicate UrlStartsAt(s: string, i: int) {
    || (OccursAt(s, "http://", i) && i + 7 < |s| && !IsSpace(s[i + 7]))
    || (OccursAt(s, "https://", i) && i + 8 < |s| && !IsSpace(s[i + 8]))
  }

  /** The leftmost index at or after `from` where the link pattern matches. */
  function FirstUrlIndexFrom(s: string, from: nat): (r: Option<nat>)
    ensures r.Some? ==> from <= r.value < |s| && UrlStartsAt(s, r.value)
    ensures r.Some? ==> forall k :: from <= k < r.value ==> !UrlStartsAt(s, k)
    ensures r.None? ==> forall k :: from <= k ==> !UrlStartsAt(s, k)
    decreases |s| - from
  {
    if from >= |s| then None
    else if UrlStartsAt(s, from) then Some(from)
    else FirstUrlIndexFrom(s, from + 1)
  }

  function FirstUrlIndex(s: string): Option<nat> {
    FirstUrlIndexFrom(s, 0)
  }

  /** The length of the run of non-white-space characters that starts at `j`. */
  function NonSpaceRun(s: string, j: nat): (n: nat)
    requires j <= |s|
    ensures j + n <= |s|
    ensures forall k :: j <= k < j + n ==> !IsSpace(s[k])
    ensures j + n == |s| || IsSpace(s[j + n])
    decreases |s| - j
  {
    if j < |s| && !IsSpace(s[j]) then 1 + NonSpaceRun(s, j + 1) else 0
  }

  /**
   * `text.match(/https?:\/\/\S+/)[0]`: the leftmost match, which (the scheme
   * being free of white space) runs up to the next white space or the end.
   */
  function FirstUrl(s: string): (r: Option<string>)
    ensures r.None? <==> forall k :: 0 <= k < |s| ==> !UrlStartsAt(s, k)
    ensures r.Some? ==> FirstUrlIndex(s).Some? && r.value == s[FirstUrlIndex(s).value..FirstUrlIndex(s).value + NonSpaceRun(s, FirstUrlIndex(s).value)]
    ensures r.Some? ==> UrlStartsAt(r.value, 0) && forall k :: 0 <= k < |r.value| ==> !IsSpace(r.value[k])
  {
    match FirstUrlIndex(s)
    case None => None
    case Some(i) =>
      MatchIsLink(s, i);
      Some(s[i..i + NonSpaceRun(s, i)])
  }

  /** The run of non-white-space where the pattern matches is itself a link. */
  lemma MatchIsLink(s: string, i: nat)
    requires i < |s| && UrlStartsAt(s, i)
    ensures UrlStartsAt(s[i..i + NonSpaceRun(s, i)], 0)
  {
    SchemeIsNonSpace(s, i);
    var u := s[i..i + NonSpaceRun(s, i)];
    if OccursAt(s, "http://", i) && i + 7 < |s| && !IsSpace(s[i + 7]) {
      assert u[..7] == s[i..i + 7] && u[7] == s[i + 7];
    } else {
      assert u[..8] == s[i..i + 8] && u[8] == s[i + 8];
    }
  }

  lemma {:induction false} NonSpaceRunAtLeast(s: string, j: nat, m: nat)
    requires j + m <= |s| && forall k :: j <= k < j + m ==> !IsSpace(s[k])
    ensures NonSpaceRun(s, j) >= m
    decreases m
  {
    if m > 0 {
      NonSpaceRunAtLeast(s, j + 1, m - 1);
    }
  }

  /** Where the link pattern matches, the run of non-white-space covers the scheme and the character after it. */
  lemma SchemeIsNonSpace(s: string, i: nat)
    requires UrlStartsAt(s, i)
    ensures OccursAt(s, "http://", i) ==> NonSpaceRun(s, i) >= 8
    ensures OccursAt(s, "https://", i) && i + 8 < |s| && !IsSpace(s[i + 8]) ==> NonSpaceRun(s, i) >= 9
  {
    if OccursAt(s, "http://", i) {
      assert forall k :: i <= k < i + 7 ==> s[k] == "http://"[k - i];
      NonSpaceRunAtLeast(s, i, 8);
    }
    if OccursAt(s, "https://", i) && i + 8 < |s| && !IsSpace(s[i + 8]) {
      assert forall k :: i <= k < i + 8 ==> s[k] == "https://"[k - i];
      NonSpaceRunAtLeast(s, i, 9);
    }
  }

  /** Wherever a link occurs in a text, the link pattern matches there. */
  lemma LinkOccurrenceIsMatch(s: string, u: string, k: int)
    requires UrlStartsAt(u, 0) && forall j :: 0 <= j < |u| ==> !IsSpace(u[j])
    ensures OccursAt(s, u, k) ==> UrlStartsAt(s, k)
  {
    if OccursAt(s, u, k) {
      assert s[k..k + |u|] == u;
      assert OccursAt(u, "http://", 0) ==> s[k..k + 7] == u[..7] && s[k + 7] == u[7];
      assert OccursAt(u, "https://", 0) && 8 < |u| ==> s[k..k + 8] == u[..8] && s[k + 8] == u[8];
    }
  }

  /**
   * `text.replace(url, "")` removes the matched link itself: the first
   * occurrence of the link text is where the pattern matched.
   */
  lemma FirstUrlIsFirstOccurrence(s: string)
    requires FirstUrl(s).Some?
    ensures IndexOf(s, FirstUrl(s).value) == FirstUrlIndex(s)
  {
    var u := FirstUrl(s).value;
    var i := FirstUrlIndex(s).value;
    forall k | 0 <= k < i ensures !OccursAt(s, u, k) {
      LinkOccurrenceIsMatch(s, u, k);
    }
    assert OccursAt(s, u, i);
  }

  // ------------------------------------------------------ legacy image link

  const ImageExtensions: seq<string> := ["png", "jpg", "jpeg", "gif", "webp", "jfif", "bmp", "tiff", "svg"]

  /** `/\.(png|jpg|jpeg|gif|webp|jfif|bmp|tiff|svg)$/i`: the link ends in a dot and an image extension, in any case. */
  predicate IsImageUrl(url: string) {
    exists e :: e in ImageExtensions && EndsWith(ToLower(url), "." + e)
  }

  /** The text left beside a legacy image: the text without the link, trimmed. */
  function TextCaption(text: string, url: string): string {
    Trim(ReplaceFirst(text, url, ""))
  }

  // --------------------------------------------------------------- file icons

  datatype FileIcon = AttachmentIcon | PdfIcon | WordIcon | SpreadsheetIcon | SlidesIcon | ArchiveIcon | TextIcon | ImageIcon | DocumentIcon

  /** The icon category of a lowercased extension. */
  function IconForExtension(ext: string): FileIcon {
    if ext == "pdf" then PdfIcon
    else if ext in ["doc", "docx"] then WordIcon
    else if ext in ["xls", "xlsx", "csv"] then SpreadsheetIcon
    else if ext in ["ppt", "pptx"] then SlidesIcon
    else if ext in ["zip", "rar", "7z", "tar", "gz"] then ArchiveIcon
    else if ext in ["txt", "rtf"] then TextIcon
    else if ext in ["jpg", "jpeg", "png", "gif", "webp", "svg", "bmp"] then ImageIcon
    else DocumentIcon
  }

  /** `getFileIcon`: no name gives the attachment icon; otherwise the lowercased text after the last dot decides. */
  function FileIconOf(fileName: Option<string>): (icon: FileIcon)
    ensures !Truthy(fileName) <==> icon == AttachmentIcon
  {
    if !Truthy(fileName) then AttachmentIcon
    else IconForExtension(ToLower(LastSegment(fileName.value, '.')))
  }

  /** For a name with an extension, the icon depends on that extension alone, in any case. */
  lemma FileIconByExtension(base: string, ext: string)
    requires '.' !in ext
    ensures FileIconOf(Some(base + "." + ext)) == IconForExtension(ToLower(ext))
  {
    LastSegmentAfterSeparator(base, '.', ext);
    assert base + "." + ext == base + ['.'] + ext;
  }

  // -------------------------------------------------------- display file name

  /** The number of leading decimal digits. */
  function LeadingDigits(s: string): (n: nat)
    ensures n <= |s|
    ensures forall k :: 0 <= k < n ==> IsDigit(s[k])
    ensures n == |s| || !IsDigit(s[n])
  {
    if |s| > 0 && IsDigit(s[0]) then 1 + LeadingDigits(s[1..]) else 0
  }

  predicate NoLineTerminator(s: string) {
    forall k :: 0 <= k < |s| ==> !IsLineTerminator(s[k])
  }

  /**
   * `/^\d{13,}-(.+)$/`: a leading run of at least 13 digits, a dash and a
   * non-empty rest without line terminators is replaced by the rest; any
   * other name is kept. The digit run cannot end early, since a digit is
   * never the dash.
   */
  function StripTimestamp(s: string): (r: string)
    ensures LeadingDigits(s) < 13 ==> r == s
    ensures r != s ==> var k := LeadingDigits(s);
              k >= 13 && k + 1 < |s| && s[k] == '-' && r == s[k + 1..] && NoLineTerminator(r)
  {
    var k := LeadingDigits(s);
    if k >= 13 && k + 1 < |s| && s[k] == '-' && NoLineTerminator(s[k + 1..]) then s[k + 1..] else s
  }

  /** A name made of a timestamp of 13 or more digits, a dash and a one-line rest loses exactly the timestamp. */
  lemma StripTimestampOf(stamp: string, rest: string)
    requires |stamp| >= 13 && forall k :: 0 <= k < |stamp| ==> IsDigit(stamp[k])
    requires rest != "" && NoLineTerminator(rest)
    ensures StripTimestamp(stamp + "-" + rest) == rest
  {
    var s := stamp + "-" + rest;
    LeadingDigitsOfPrefix(stamp, "-" + rest);
    assert s == stamp + ("-" + rest);
    assert s[|stamp| + 1..] == rest;
  }

  lemma {:induction false} LeadingDigitsOfPrefix(digits: string, rest: string)
    requires forall k :: 0 <= k < |digits| ==> IsDigit(digits[k])
    requires rest != [] && !IsDigit(rest[0])
    ensures LeadingDigits(digits + rest) == |digits|
  {
    if |digits| > 0 {
      LeadingDigitsOfPrefix(digits[1..], rest);
      assert (digits + rest)[1..] == digits[1..] + rest;
    } else {
      assert digits + rest == rest;
    }
  }

  /** The Office MIME-style suffixes and the short extensions that replace them, in the order they are tried. */
  const OfficeSuffixes: seq<(string, string)> := [
    ("vnd.openxmlformats-officedocument.wordprocessingml.document", "docx"),
    ("vnd.openxmlformats-officedocument.spreadsheetml.sheet", "xlsx"),
    ("vnd.openxmlformats-officedocument.presentationml.presentation", "pptx"),
    ("vnd.ms-excel", "xls"),
    ("vnd.ms-powerpoint", "ppt"),
    ("msword", "doc")]

  /** One table entry: when the name contains `ugly` and ends in `.ugly`, that ending becomes `.clean`. */
  function RewriteSuffix(name: string, ugly: string, clean: string): (r: string)
    ensures EndsWith(name, "." + ugly) ==> r == name[..|name| - |ugly| - 1] + "." + clean
    ensures !EndsWith(name, "." + ugly) ==> r == name
  {
    if Includes(name, ugly) && EndsWith(name, "." + ugly) then name[..|name| - |ugly| - 1] + "." + clean
    else
      assert EndsWith(name, "." + ugly) ==> OccursAt(name, ugly, |name| - |ugly|);
      name
  }

  /** The table applied entry by entry, in order. */
  function RewriteSuffixes(name: string, table: seq<(string, string)>): string
    decreases |table|
  {
    if table == [] then name else RewriteSuffixes(RewriteSuffix(name, table[0].0, table[0].1), table[1..])
  }

  function CleanOfficeSuffix(name: string): string {
    RewriteSuffixes(name, OfficeSuffixes)
  }

  /** A name that ends in none of the table's dotted suffixes comes through unchanged. */
  lemma {:induction false} RewriteSuffixesUnchanged(name: string, table: seq<(string, string)>)
    requires forall j :: 0 <= j < |table| ==> !EndsWith(name, "." + table[j].0)
    ensures RewriteSuffixes(name, table) == name
  {
    if table != [] {
      RewriteSuffixesUnchanged(name, table[1..]);
    }
  }

  /** Two strings that differ `k` places from their ends cannot both end a string. */
  lemma DistinctEndings(s: string, a: string, b: string, k: nat)
    requires 0 < k <= |a| && k <= |b| && a[|a| - k] != b[|b| - k]
    ensures EndsWith(s, a) ==> !EndsWith(s, b)
  {
    if EndsWith(s, a) && |b| <= |s| {
      assert s[|s| - k] == a[|a| - k];
      assert s[|s| - |b|..][|b| - k] != b[|b| - k];
    }
  }

  /** Names that end in none of the Office suffixes are displayed unchanged. */
  lemma CleanOfficeSuffixKeepsOthers(name: string)
    requires forall j :: 0 <= j < |OfficeSuffixes| ==> !EndsWith(name, "." + OfficeSuffixes[j].0)
    ensures CleanOfficeSuffix(name) == name
  {
    RewriteSuffixesUnchanged(name, OfficeSuffixes);
  }

  lemma {:induction false} RewriteSuffixesSkip(name: string, table: seq<(string, string)>, i: nat)
    requires i <= |table|
    requires forall j :: 0 <= j < i ==> !EndsWith(name, "." + table[j].0)
    ensures RewriteSuffixes(name, table) == RewriteSuffixes(name, table[i..])
    decreases i
  {
    if i > 0 {
      RewriteSuffixesSkip(name, table[1..], i - 1);
      assert table[1..][i - 1..] == table[i..];
    }
  }

  /** How far from their ends two dotted suffixes first differ (1 to 3 suffices for this table). */
  function EndingGap(a: string, b: string): nat {
    if |a| >= 1 && |b| >= 1 && a[|a| - 1] != b[|b| - 1] then 1
    else if |a| >= 2 && |b| >= 2 && a[|a| - 2] != b[|b| - 2] then 2
    else 3
  }

  /** Any two dotted suffixes of the table differ within three characters of their ends. */
  lemma OfficeSuffixesDiffer(i: nat, j: nat)
    requires j < i < |OfficeSuffixes|
    ensures var a := "." + OfficeSuffixes[i].0; var b := "." + OfficeSuffixes[j].0;
      var k := EndingGap(a, b); 0 < k <= |a| && k <= |b| && a[|a| - k] != b[|b| - k]
  {
  }

  /** A short extension never ends like a dotted suffix that comes later in the table. */
  lemma OfficeCleanDiffers(i: nat, j: nat)
    requires i < j < |OfficeSuffixes|
    ensures var a := "." + OfficeSuffixes[i].1; var b := "." + OfficeSuffixes[j].0;
      0 < |a| && 0 < |b| && a[|a| - 1] != b[|b| - 1]
  {
  }

  /** An entry fires on a name that ends in its dotted suffix, whatever precedes it. */
  lemma RewriteSuffixFires(base: string, ugly: string, clean: string)
    ensures EndsWith(base + "." + ugly, "." + ugly)
    ensures RewriteSuffix(base + "." + ugly, ugly, clean) == base + "." + clean
  {
    var name := base + "." + ugly;
    assert name[|name| - |"." + ugly|..] == "." + ugly;
    assert name[..|name| - |ugly| - 1] == base;
  }

  /** Applying a table from entry `i` on is applying entry `i`, then the rest. */
  lemma RewriteSuffixesFrom(name: string, table: seq<(string, string)>, i: nat)
    requires i < |table|
    ensures RewriteSuffixes(name, table[i..])
              == RewriteSuffixes(RewriteSuffix(name, table[i].0, table[i].1), table[i + 1..])
  {
    assert table[i..][0] == table[i] && table[i..][1..] == table[i + 1..];
  }

  /** A table whose entry `i` fires on `base.ugly` and no other entry fires before or after turns it into `base.clean`. */
  lemma RewriteSuffixesAt(base: string, table: seq<(string, string)>, i: nat)
    requires i < |table|
    requires forall j :: 0 <= j < i ==> !EndsWith(base + "." + table[i].0, "." + table[j].0)
    requires forall j :: i < j < |table| ==> !EndsWith(base + "." + table[i].1, "." + table[j].0)
    ensures RewriteSuffixes(base + "." + table[i].0, table) == base + "." + table[i].1
  {
    var name := base + "." + table[i].0;
    var renamed := base + "." + table[i].1;
    RewriteSuffixesSkip(name, table, i);
    RewriteSuffixFires(base, table[i].0, table[i].1);
    RewriteSuffixesFrom(name, table, i);
    var later := table[i + 1..];
    forall j | 0 <= j < |later| ensures !EndsWith(renamed, "." + later[j].0) {
      assert later[j] == table[i + 1 + j];
    }
    RewriteSuffixesUnchanged(renamed, later);
  }

  /**
   * Entry `i` of the table is told apart by the ends of names: its dotted
   * suffix ends differently from every earlier one, and its dotted short
   * extension differs in the last character from every later suffix.
   */
  predicate SuffixesDistinctAt(table: seq<(string, string)>, i: nat)
    requires i < |table|
  {
    && (forall j :: 0 <= j < i ==>
          var a := "." + table[i].0; var b := "." + table[j].0;
          var k := EndingGap(a, b); 0 < k <= |a| && k <= |b| && a[|a| - k] != b[|b| - k])
    && (forall j :: i < j < |table| ==>
          var a := "." + table[i].1; var b := "." + table[j].0;
          0 < |a| && 0 < |b| && a[|a| - 1] != b[|b| - 1])
  }

  /** A table whose entry `i` is told apart by name ends rewrites a name ending in that entry's suffix. */
  lemma RewriteSuffixesDistinct(base: string, table: seq<(string, string)>, i: nat)
    requires i < |table| && SuffixesDistinctAt(table, i)
    ensures RewriteSuffixes(base + "." + table[i].0, table) == base + "." + table[i].1
  {
    var name := base + "." + table[i].0;
    assert EndsWith(name, "." + table[i].0) by {
      assert name[|name| - |"." + table[i].0|..] == "." + table[i].0;
    }
    forall j | 0 <= j < i ensures !EndsWith(name, "." + table[j].0) {
      var a := "." + table[i].0;
      var b := "." + table[j].0;
      DistinctEndings(name, a, b, EndingGap(a, b));
    }
    var renamed := base + "." + table[i].1;
    assert EndsWith(renamed, "." + table[i].1) by {
      assert renamed[|renamed| - |"." + table[i].1|..] == "." + table[i].1;
    }
    forall j | i < j < |table| ensures !EndsWith(renamed, "." + table[j].0) {
      DistinctEndings(renamed, "." + table[i].1, "." + table[j].0, 1);
    }
    RewriteSuffixesAt(base, table, i);
  }

  /** Every entry of the Office table is told apart by name ends. */
  lemma OfficeSuffixesDistinct(i: nat)
    requires i < |OfficeSuffixes|
    ensures SuffixesDistinctAt(OfficeSuffixes, i)
  {
    forall j | 0 <= j < i
      ensures var a := "." + OfficeSuffixes[i].0; var b := "." + OfficeSuffixes[j].0;
        var k := EndingGap(a, b); 0 < k <= |a| && k <= |b| && a[|a| - k] != b[|b| - k]
    {
      OfficeSuffixesDiffer(i, j);
    }
    forall j | i < j < |OfficeSuffixes|
      ensures var a := "." + OfficeSuffixes[i].1; var b := "." + OfficeSuffixes[j].0;
        0 < |a| && 0 < |b| && a[|a| - 1] != b[|b| - 1]
    {
      OfficeCleanDiffers(i, j);
    }
  }

  /**
   * A name ending in one of the Office suffixes is shown with that suffix
   * replaced by its short extension, whatever comes before it; the other
   * entries of the table neither fire before nor after.
   */
  lemma CleanOfficeSuffixRewrites(base: string, i: nat)
    requires i < |OfficeSuffixes|
    ensures CleanOfficeSuffix(base + "." + OfficeSuffixes[i].0) == base + "." + OfficeSuffixes[i].1
  {
    OfficeSuffixesDistinct(i);
    RewriteSuffixesDistinct(base, OfficeSuffixes, i);
  }

  /**
   * `getDisplayFileName`'s choice of raw name: the first truthy of the three
   * name fields, else the text after the link's last slash; `None` when that
   * is empty too.
   */
  function SourceName(p: MessageProps, url: Option<string>): (r: Option<string>)
    ensures r.Some? ==> r.value != ""
    ensures Truthy(p.fileName) ==> r == p.fileName
    ensures !Truthy(p.fileName) && Truthy(p.filename) ==> r == p.filename
    ensures !Truthy(p.fileName) && !Truthy(p.filename) && Truthy(p.originalFilename) ==> r == p.originalFilename
    ensures !Truthy(p.fileName) && !Truthy(p.filename) && !Truthy(p.originalFilename) ==>
              r == (if Truthy(url) && LastSegment(url.value, '/') != "" then Some(LastSegment(url.value, '/')) else None)
  {
    var given := Or(Or(p.fileName, p.filename), p.originalFilename);
    var name := if !Truthy(given) && Truthy(url) then Some(LastSegment(url.value, '/')) else given;
    if Truthy(name) then name else None
  }

  /**
   * `getDisplayFileName`: "Document" without a name; otherwise the name is
   * URI-decoded (`decode` stands for `decodeURIComponent`), loses a leading
   * timestamp and has an Office suffix shortened.
   */
  function DisplayFileName(p: MessageProps, url: Option<string>, decode: string -> string): (r: string)
    ensures SourceName(p, url).None? ==> r == "Document"
    ensures SourceName(p, url).Some? ==> r == CleanOfficeSuffix(StripTimestamp(decode(SourceName(p, url).value)))
  {
    match SourceName(p, url)
    case None => "Document"
    case Some(name) => CleanOfficeSuffix(StripTimestamp(decode(name)))
  }

  // ---------------------------------------------------------------- rendering

  /** What a bubble shows, with the links and texts it uses. */
  datatype Content =
    | ImageView(url: string, subtitle: Option<string>)
    | LegacyImage(url: string, textCaption: string)
    | Unavailable(kind: string)
    | VideoView(url: string, thumbnailUrl: Option<string>, mimeType: string, subtitle: Option<string>)
    | AudioView(url: string, caption: Option<string>)
    | DocumentView(url: string, fileName: string, icon: FileIcon, caption: Option<string>)
    | LocationView(link: Option<string>, caption: Option<string>)
    | ContactCard(caption: Option<string>)
    | StickerView(url: string, caption: Option<string>)
    | StickerPlaceholder
    | TextView(text: string)

  /** The message types with a dedicated branch; any other type is shown as text. */
  const MediaTypes: seq<string> := ["image", "video", "audio", "document", "location", "contact", "sticker"]

  /** A caption is shown only when truthy. */
  function ShownCaption(n: Normalized): (c: Option<string>)
    ensures c.Some? <==> Truthy(n.caption)
    ensures c.Some? ==> c == n.caption
  {
    if Truthy(n.caption) then n.caption else None
  }

  /** What image and video views show beneath the media: the caption when truthy, else the text when not empty. */
  function Subtitle(n: Normalized): (s: Option<string>)
    ensures s.None? <==> !Truthy(n.caption) && n.text == ""
    ensures Truthy(n.caption) ==> s == n.caption
    ensures !Truthy(n.caption) && s.Some? ==> s.value == n.text
  {
    if Truthy(n.caption) then n.caption else if n.text != "" then Some(n.text) else None
  }

  /** The link a document or sticker uses: the media link when truthy, else the first link in the text. */
  function MediaOrTextLink(n: Normalized): (r: Option<string>)
    ensures r.None? <==> !Truthy(n.mediaUrl) && forall k :: 0 <= k < |n.text| ==> !UrlStartsAt(n.text, k)
    ensures r.Some? ==> r.value != ""
    ensures Truthy(n.mediaUrl) ==> r == n.mediaUrl
    ensures !Truthy(n.mediaUrl) ==> r == FirstUrl(n.text)
  {
    if Truthy(n.mediaUrl) then n.mediaUrl else FirstUrl(n.text)
  }

  /** The bubble for a message whose type has no dedicated branch: a legacy image when its first link names an image. */
  function RenderText(text: string): (c: Content)
    ensures c.LegacyImage? <==> FirstUrl(text).Some? && IsImageUrl(FirstUrl(text).value)
    ensures c.LegacyImage? ==> c.url == FirstUrl(text).value && c.textCaption == TextCaption(text, c.url)
    ensures !c.LegacyImage? ==> c == TextView(text)
  {
    match FirstUrl(text)
    case Some(u) => if IsImageUrl(u) then LegacyImage(u, TextCaption(text, u)) else TextView(text)
    case None => TextView(text)
  }

  /** The image branch: the media link with the caption (or else the text) beneath, a link found in the text, or the placeholder. */
  function DrawImage(n: Normalized): (c: Content)
    ensures Truthy(n.mediaUrl) ==> c == ImageView(n.mediaUrl.value, Subtitle(n))
    ensures !Truthy(n.mediaUrl) && FirstUrl(n.text).Some? ==>
              c == LegacyImage(FirstUrl(n.text).value, TextCaption(n.text, FirstUrl(n.text).value))
    ensures !Truthy(n.mediaUrl) && FirstUrl(n.text).None? ==> c == Unavailable("image")
  {
    if !Truthy(n.mediaUrl) then
      match FirstUrl(n.text)
      case Some(u) => LegacyImage(u, TextCaption(n.text, u))
      case None => Unavailable("image")
    else
      ImageView(n.mediaUrl.value, Subtitle(n))
  }

  /** The document branch: the media-or-text link with its display name and icon, or the placeholder. */
  function DrawDocument(p: MessageProps, n: Normalized, decode: string -> string): (c: Content)
    ensures MediaOrTextLink(n).None? <==> c == Unavailable("document")
    ensures MediaOrTextLink(n).Some? ==>
              && c.DocumentView? && c.url == MediaOrTextLink(n).value
              && c.fileName == DisplayFileName(p, MediaOrTextLink(n), decode)
              && c.icon == FileIconOf(Some(c.fileName))
              && c.caption == ShownCaption(n)
  {
    match MediaOrTextLink(n)
    case None => Unavailable("document")
    case Some(url) =>
      var name := DisplayFileName(p, Some(url), decode);
      DocumentView(url, name, FileIconOf(Some(name)), ShownCaption(n))
  }

  /** The message types with a dedicated branch, and all the others. */
  datatype Kind = ImageKind | VideoKind | AudioKind | DocumentKind | LocationKind | ContactKind | StickerKind | TextKind

  function KindOf(t: string): (k: Kind)
    ensures k == TextKind <==> t !in MediaTypes
    ensures k == ImageKind <==> t == "image"
    ensures k == DocumentKind <==> t == "document"
    ensures k == StickerKind <==> t == "sticker"
    ensures k == VideoKind <==> t == "video"
    ensures k == AudioKind <==> t == "audio"
    ensures k == LocationKind <==> t == "location"
    ensures k == ContactKind <==> t == "contact"
  {
    if t == "image" then ImageKind
    else if t == "video" then VideoKind
    else if t == "audio" then AudioKind
    else if t == "document" then DocumentKind
    else if t == "location" then LocationKind
    else if t == "contact" then ContactKind
    else if t == "sticker" then StickerKind
    else TextKind
  }

  /**
   * `renderMessageContent` on the normalised fields `n` of the props `p`:
   * the branch taken for each message type and what it shows.
   */
  function Draw(p: MessageProps, n: Normalized, decode: string -> string): (c: Content)
    ensures KindOf(n.messageType) == ImageKind ==> c == DrawImage(n)
    ensures KindOf(n.messageType) in {VideoKind, AudioKind} ==> (!Truthy(n.mediaUrl) <==> c == Unavailable(n.messageType))
    ensures KindOf(n.messageType) == VideoKind && Truthy(n.mediaUrl) ==>
              && c.VideoView? && c.url == n.mediaUrl.value && c.thumbnailUrl == p.thumbnailUrl
              && c.mimeType == (if Truthy(p.mimeType) then p.mimeType.value else "video/mp4")
              && c.subtitle == Subtitle(n)
    ensures KindOf(n.messageType) == AudioKind && Truthy(n.mediaUrl) ==> c == AudioView(n.mediaUrl.value, ShownCaption(n))
    ensures KindOf(n.messageType) == DocumentKind ==> c == DrawDocument(p, n, decode)
    ensures KindOf(n.messageType) == StickerKind ==>
              c == (if MediaOrTextLink(n).Some? then StickerView(MediaOrTextLink(n).value, ShownCaption(n)) else StickerPlaceholder)
    ensures KindOf(n.messageType) == LocationKind ==>
              && c.LocationView? && c.caption == ShownCaption(n)
              && (c.link.None? <==> !Truthy(n.mediaUrl) && n.text == "")
              && (c.link.Some? ==> c.link.value == (if Truthy(n.mediaUrl) then n.mediaUrl.value else n.text))
    ensures KindOf(n.messageType) == ContactKind ==> c == ContactCard(ShownCaption(n))
    ensures KindOf(n.messageType) == TextKind ==> c == RenderText(n.text)
  {
    var caption := ShownCaption(n);
    match KindOf(n.messageType)
    case ImageKind => DrawImage(n)
    case VideoKind =>
      if !Truthy(n.mediaUrl) then Unavailable("video")
      else VideoView(n.mediaUrl.value, p.thumbnailUrl, OrElse(p.mimeType, "video/mp4"), Subtitle(n))
    case AudioKind =>
      if !Truthy(n.mediaUrl) then Unavailable("audio") else AudioView(n.mediaUrl.value, caption)
    case DocumentKind => DrawDocument(p, n, decode)
    case LocationKind =>
      var link := if Truthy(n.mediaUrl) then n.mediaUrl.value else n.text;
      LocationView(if link != "" then Some(link) else None, caption)
    case ContactKind => ContactCard(caption)
    case StickerKind =>
      (match MediaOrTextLink(n)
       case None => StickerPlaceholder
       case Some(url) => StickerView(url, caption))
    case TextKind => RenderText(n.text)
  }

  /** The bubble's content for a message object. */
  function Render(p: MessageProps, decode: string -> string): Content {
    Draw(p, Normalize(p), decode)
  }

  /**
   * The history loaded for a conversation keeps only the text, so every
   * historical message, whatever its media, is drawn as text or as a legacy
   * image.
   */
  lemma HistoryRendersAsText(history: Query<seq<MessageRow>>, i: nat, decode: string -> string)
    requires i < |GetMessagesOfChatRoom(history)|
    ensures var m := GetMessagesOfChatRoom(history)[i];
      Render(PropsOf(m), decode) == RenderText(m.message.GetOr(""))
  {
  }

  // -------------------------------------------------- media messages as sent

  /** A scheme without a newline, found before a newline and followed by a non-space, lies wholly in the line before it. */
  lemma SchemeBeforeNewline(c: string, rest: string, scheme: string, k: nat)
    requires '\n' !in scheme
    requires k <= |c| && OccursAt(c + "\n" + rest, scheme, k)
    requires k + |scheme| < |c + "\n" + rest| && !IsSpace((c + "\n" + rest)[k + |scheme|])
    ensures k + |scheme| < |c| && OccursAt(c, scheme, k) && c[k + |scheme|] == (c + "\n" + rest)[k + |scheme|]
  {
    var body := c + "\n" + rest;
    assert body[|c|] == '\n';
    assert forall p :: k <= p < k + |scheme| ==> body[p] == body[k..k + |scheme|][p - k] == scheme[p - k];
    assert forall j :: 0 <= j < |scheme| ==> scheme[j] != '\n';
    assert k + |scheme| < |c|;
    assert c[k..k + |scheme|] == body[k..k + |scheme|];
  }

  /** A link can start on the line before a newline only where it starts in that line alone. */
  lemma UrlStartBeforeNewline(c: string, rest: string, k: int)
    ensures 0 <= k <= |c| && UrlStartsAt(c + "\n" + rest, k) ==> k < |c| && UrlStartsAt(c, k)
  {
    var body := c + "\n" + rest;
    if 0 <= k <= |c| && OccursAt(body, "http://", k) && k + 7 < |body| && !IsSpace(body[k + 7]) {
      SchemeBeforeNewline(c, rest, "http://", k);
    }
    if 0 <= k <= |c| && OccursAt(body, "https://", k) && k + 8 < |body| && !IsSpace(body[k + 8]) {
      SchemeBeforeNewline(c, rest, "https://", k);
    }
  }

  /** A link that runs to the end of a text, with no match before it, is the text's first link. */
  lemma FirstUrlAtEnd(s: string, at: nat)
    requires at <= |s| && UrlStartsAt(s, at)
    requires forall k :: 0 <= k < at ==> !UrlStartsAt(s, k)
    requires forall k :: at <= k < |s| ==> !IsSpace(s[k])
    ensures FirstUrlIndex(s) == Some(at)
    ensures FirstUrl(s) == Some(s[at..])
  {
    NonSpaceRunAtLeast(s, at, |s| - at);
    assert FirstUrlIndex(s) == Some(at);
    assert at + NonSpaceRun(s, at) == |s|;
    assert FirstUrl(s).Some?;
    assert s[at..at + NonSpaceRun(s, at)] == s[at..];
  }

  /** When the caption holds no link, the link that ends a media message's body is the first link found in it. */
  lemma MediaBodyFirstUrl(url: string, caption: Option<string>)
    requires UrlStartsAt(url, 0) && forall k :: 0 <= k < |url| ==> !IsSpace(url[k])
    requires Truthy(caption) ==> FirstUrl(caption.value).None?
    ensures FirstUrl(MediaBody(url, caption)) == Some(url)
    ensures FirstUrlIndex(MediaBody(url, caption)) == Some(|MediaBody(url, caption)| - |url|)
  {
    var body := MediaBody(url, caption);
    var at := |body| - |url|;
    assert body[at..] == url;
    if Truthy(caption) {
      var c := caption.value;
      forall k | 0 <= k < at ensures !UrlStartsAt(body, k) {
        UrlStartBeforeNewline(c, url, k);
      }
    }
    assert forall k :: at <= k < |body| ==> body[k] == url[k - at];
    assert OccursAt(url, "http://", 0) ==> body[at..at + 7] == url[..7];
    assert OccursAt(url, "https://", 0) ==> body[at..at + 8] == url[..8];
    FirstUrlAtEnd(body, at);
  }

  /** When the caption holds no link, a media message's body without its link, trimmed, is the trimmed caption. */
  lemma MediaBodyTextCaption(url: string, caption: Option<string>)
    requires UrlStartsAt(url, 0) && forall k :: 0 <= k < |url| ==> !IsSpace(url[k])
    requires Truthy(caption) ==> FirstUrl(caption.value).None?
    ensures TextCaption(MediaBody(url, caption), url) == Trim(caption.GetOr(""))
  {
    var body := MediaBody(url, caption);
    MediaBodyFirstUrl(url, caption);
    FirstUrlIsFirstOccurrence(body);
    var at := |body| - |url|;
    assert ReplaceFirst(body, url, "") == body[..at];
    if Truthy(caption) {
      assert body[..at] == caption.value + "\n";
      TrimAppendSpace(caption.value, '\n');
    } else {
      assert body[..at] == "";
    }
  }

  /**
   * How a media message whose caption holds no link comes back in the
   * history: a row whose text is the body `sendMediaMessage` sends is drawn as a legacy image captioned by
   * the trimmed caption when the link names an image, and as the plain body
   * otherwise.
   */
  lemma SentMediaRendering(history: Query<seq<MessageRow>>, i: nat, url: string, caption: Option<string>,
                           decode: string -> string)
    requires UrlStartsAt(url, 0) && forall k :: 0 <= k < |url| ==> !IsSpace(url[k])
    requires Truthy(caption) ==> FirstUrl(caption.value).None?
    requires i < |RowsOf(history)| && RowsOf(history)[i].message == Some(MediaBody(url, caption))
    ensures var m := GetMessagesOfChatRoom(history)[i];
      Render(PropsOf(m), decode) ==
        if IsImageUrl(url) then LegacyImage(url, Trim(caption.GetOr(""))) else TextView(MediaBody(url, caption))
  {
    HistoryRendersAsText(history, i, decode);
    MediaBodyFirstUrl(url, caption);
    MediaBodyTextCaption(url, caption);
  }

  // ------------------------------------------------ captions holding a link

  /** Extending a text past a white-space character leaves the non-space runs inside it as they were. */
  lemma {:induction false} NonSpaceRunInPrefix(c: string, body: string, j: nat)
    requires |c| < |body| && body[..|c|] == c && IsSpace(body[|c|]) && j <= |c|
    ensures NonSpaceRun(body, j) == NonSpaceRun(c, j)
    decreases |c| - j
  {
    if j < |c| {
      assert body[j] == c[j];
      NonSpaceRunInPrefix(c, body, j + 1);
    }
  }

  /** Where the link pattern matches in a text, it matches in any extension of that text. */
  lemma UrlStartInPrefix(c: string, body: string, i: nat)
    requires |c| <= |body| && body[..|c|] == c && i < |c| && UrlStartsAt(c, i)
    ensures UrlStartsAt(body, i)
  {
    assert forall k :: 0 <= k < |c| ==> body[k] == c[k];
    if OccursAt(c, "http://", i) && i + 7 < |c| {
      assert body[i..i + 7] == c[i..i + 7];
    }
    if OccursAt(c, "https://", i) && i + 8 < |c| {
      assert body[i..i + 8] == c[i..i + 8];
    }
  }

  /** `body` starts with the line `c` ended by a newline. */
  predicate LineOf(c: string, body: string) {
    |c| < |body| && body[..|c|] == c && body[|c|] == '\n'
  }

  /** A link can start within the first line only where it starts in that line alone. */
  lemma UrlStartInLine(c: string, body: string, k: int)
    requires LineOf(c, body)
    ensures 0 <= k <= |c| && UrlStartsAt(body, k) ==> k < |c| && UrlStartsAt(c, k)
  {
    var rest := body[|c| + 1..];
    assert body == c + "\n" + rest;
    UrlStartBeforeNewline(c, rest, k);
  }

  /** A link in the first line is the first link of the whole text, found at the same place. */
  lemma FirstUrlIndexInLine(c: string, body: string)
    requires LineOf(c, body) && FirstUrlIndex(c).Some?
    ensures FirstUrlIndex(body) == FirstUrlIndex(c)
  {
    var i := FirstUrlIndex(c).value;
    UrlStartInPrefix(c, body, i);
    forall k | 0 <= k < i ensures !UrlStartsAt(body, k) {
      UrlStartInLine(c, body, k);
    }
  }

  /** Two texts whose first matches sit at the same place with the same run have the same first link. */
  lemma SameFirstUrl(s: string, t: string, i: nat)
    requires FirstUrlIndex(s) == Some(i) && FirstUrlIndex(t) == Some(i)
    requires s[i..i + NonSpaceRun(s, i)] == t[i..i + NonSpaceRun(t, i)]
    ensures FirstUrl(s) == FirstUrl(t)
  {
  }

  /** A run of non-space in the first line is the same run in the whole text. */
  lemma RunInLine(c: string, body: string, i: nat)
    requires LineOf(c, body) && i <= |c|
    ensures body[i..i + NonSpaceRun(body, i)] == c[i..i + NonSpaceRun(c, i)]
  {
    var n := NonSpaceRun(c, i);
    NonSpaceRunInPrefix(c, body, i);
    assert i + n <= |c|;
    forall k | i <= k < i + n ensures body[k] == c[k] {
      assert body[..|c|][k] == body[k];
    }
    assert body[i..i + n] == c[i..i + n];
  }

  /** The first link of the first line is the first link of the whole text. */
  lemma FirstUrlInLine(c: string, body: string)
    requires LineOf(c, body) && FirstUrl(c).Some?
    ensures FirstUrlIndex(body) == FirstUrlIndex(c)
    ensures FirstUrl(body) == FirstUrl(c)
  {
    var i := FirstUrlIndex(c).value;
    FirstUrlIndexInLine(c, body);
    RunInLine(c, body, i);
    SameFirstUrl(body, c, i);
  }

  /**
   * When the caption holds a link, the first link of the media body is the
   * caption's, found where the caption has it; the uploaded file's link is
   * never reached.
   */
  lemma CaptionLinkWins(url: string, c: string)
    requires c != "" && FirstUrl(c).Some?
    ensures FirstUrlIndex(MediaBody(url, Some(c))) == FirstUrlIndex(c)
    ensures FirstUrl(MediaBody(url, Some(c))) == FirstUrl(c)
  {
    MediaBodyLine(url, c);
    FirstUrlInLine(c, MediaBody(url, Some(c)));
  }

  /** A captioned media body is the caption's line followed by the link. */
  lemma MediaBodyLine(url: string, c: string)
    requires c != ""
    ensures LineOf(c, MediaBody(url, Some(c))) && MediaBody(url, Some(c))[|c|..] == "\n" + url
  {
    var body := MediaBody(url, Some(c));
    assert body == c + "\n" + url;
    assert body[..|c|] == c;
  }

  /** Cutting a span out of the front part of a text cuts it out of that part. */
  lemma CutInPrefix(c: string, body: string, a: nat, m: nat)
    requires a + m <= |c| <= |body| && body[..|c|] == c
    ensures body[..a] + body[a + m..] == c[..a] + c[a + m..] + body[|c|..]
  {
    assert body[..a] == c[..a];
    assert body[a + m..] == c[a + m..] + body[|c|..];
  }

  /** A replace by "" at a known first occurrence cuts that occurrence out. */
  lemma ReplaceFirstAt(s: string, t: string, a: nat)
    requires IndexOf(s, t) == Some(a)
    ensures ReplaceFirst(s, t, "") == s[..a] + s[a + |t|..]
  {
  }

  /** The first link of a text holding one is found at its first match and ends within the text. */
  lemma FirstUrlSpan(s: string)
    requires FirstUrl(s).Some?
    ensures IndexOf(s, FirstUrl(s).value) == FirstUrlIndex(s)
    ensures FirstUrlIndex(s).value + |FirstUrl(s).value| <= |s|
  {
    FirstUrlIsFirstOccurrence(s);
  }

  /** Cutting out an occurrence that is first both in the first part and in the whole text. */
  lemma CutFirstOccurrenceInPrefix(c: string, body: string, u: string, a: nat)
    requires |c| <= |body| && body[..|c|] == c && a + |u| <= |c|
    requires IndexOf(c, u) == Some(a) && IndexOf(body, u) == Some(a)
    ensures ReplaceFirst(body, u, "") == ReplaceFirst(c, u, "") + body[|c|..]
  {
    ReplaceFirstAt(c, u, a);
    ReplaceFirstAt(body, u, a);
    CutInPrefix(c, body, a, |u|);
  }

  /** Removing the first link from a text removes it from the first line, when that line holds one. */
  lemma FirstLinkRemovedInLine(c: string, body: string)
    requires LineOf(c, body) && FirstUrl(c).Some?
    ensures ReplaceFirst(body, FirstUrl(c).value, "") == ReplaceFirst(c, FirstUrl(c).value, "") + body[|c|..]
  {
    FirstUrlInLine(c, body);
    FirstUrlSpan(c);
    FirstUrlSpan(body);
    CutFirstOccurrenceInPrefix(c, body, FirstUrl(c).value, FirstUrlIndex(c).value);
  }

  /** Removing the caption's link from the media body removes it from the caption, before the file link. */
  lemma CaptionLinkRemoved(url: string, c: string)
    requires c != "" && FirstUrl(c).Some?
    ensures ReplaceFirst(MediaBody(url, Some(c)), FirstUrl(c).value, "") == ReplaceFirst(c, FirstUrl(c).value, "") + "\n" + url
  {
    MediaBodyLine(url, c);
    FirstLinkRemovedInLine(c, MediaBody(url, Some(c)));
  }

  /**
   * How a media message whose caption holds a link comes back in the
   * history: the caption's link, not the file's, decides. An image link is
   * drawn as a legacy image captioned by the rest of the caption and the
   * file link; any other link leaves the plain body.
   */
  lemma SentMediaRenderingLinkedCaption(history: Query<seq<MessageRow>>, i: nat, url: string, c: string,
                                        decode: string -> string)
    requires c != "" && FirstUrl(c).Some?
    requires i < |RowsOf(history)| && RowsOf(history)[i].message == Some(MediaBody(url, Some(c)))
    ensures var m := GetMessagesOfChatRoom(history)[i];
      var u := FirstUrl(c).value;
      Render(PropsOf(m), decode) ==
        if IsImageUrl(u) then LegacyImage(u, Trim(ReplaceFirst(c, u, "") + "\n" + url)) else TextView(MediaBody(url, Some(c)))
  {
    HistoryRendersAsText(history, i, decode);
    CaptionLinkWins(url, c);
    CaptionLinkRemoved(url, c);
  }
}
