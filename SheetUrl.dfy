/**
 * Turning a Google Sheets link into the address of its CSV export, as the data
 * hook does before every fetch: links that already name a CSV export or a
 * published CSV are kept, an ordinary sheet link becomes an export link for the
 * same sheet id and grid id (the first grid when none is given), and anything
 * else is passed through.
 */
module SheetUrl {
  import opened Wrappers
  import opened Text

  const PubMarker: string := "/pub?output=csv"
  const ExportMarker: string := "/export?format=csv"
  /** The literal part of `/spreadsheets\/d\/([a-zA-Z0-9-_]+)/`. */
  const SheetPath: string := "spreadsheets/d/"
  /** The literal part of `/[#&?]gid=(\d+)/` after the first character. */
  const GidKey: string := "gid="
  const Host: string := "https://docs.google.com/"
  const ExportTail: string := "/export?format=csv&gid="

  /** The character class `[a-zA-Z0-9-_]` of a sheet id. */
  predicate IsIdChar(c: char) {
    'a' <= c <= 'z' || 'A' <= c <= 'Z' || '0' <= c <= '9' || c == '-' || c == '_'
  }

  /** The character class `[#&?]` that introduces the grid id. */
  predicate IsGidMark(c: char) {
    c == '#' || c == '&' || c == '?'
  }

  /** The end of the longest run of characters satisfying `p` that starts at `i`. */
  function RunEnd(s: string, i: nat, p: char -> bool): (e: nat)
    requires i <= |s|
    ensures i <= e <= |s|
    ensures forall k :: i <= k < e ==> p(s[k])
    ensures e == |s| || !p(s[e])
    decreases |s| - i
  {
    if i < |s| && p(s[i]) then RunEnd(s, i + 1, p) else i
  }

  /** The sheet-id pattern matches at `i`: the path, then at least one id character. */
  predicate SheetAt(s: string, i: nat) {
    OccursAt(s, SheetPath, i) && i + |SheetPath| < |s| && IsIdChar(s[i + |SheetPath|])
  }

  /** The grid-id pattern matches at `i`: a mark, `gid=`, then at least one digit. */
  predicate GidAt(s: string, i: nat) {
    i + 1 + |GidKey| < |s| && IsGidMark(s[i]) && OccursAt(s, GidKey, i + 1) && IsDigit(s[i + 1 + |GidKey|])
  }

  /** The leftmost position at or after `k` where the sheet-id pattern matches. */
  function FirstSheetAt(s: string, k: nat): (r: Option<nat>)
    ensures r.Some? ==> k <= r.value && SheetAt(s, r.value)
    ensures forall i :: k <= i && (r.None? || i < r.value) ==> !SheetAt(s, i)
    decreases |s| - k
  {
    if k >= |s| then None
    else if SheetAt(s, k) then Some(k)
    else FirstSheetAt(s, k + 1)
  }

  /** The leftmost position at or after `k` where the grid-id pattern matches. */
  function FirstGidAt(s: string, k: nat): (r: Option<nat>)
    ensures r.Some? ==> k <= r.value && GidAt(s, r.value)
    ensures forall i :: k <= i && (r.None? || i < r.value) ==> !GidAt(s, i)
    decreases |s| - k
  {
    if k >= |s| then None
    else if GidAt(s, k) then Some(k)
    else FirstGidAt(s, k + 1)
  }

  /** The leftmost position at or after `k` holding a character of `[#&?]`, or -1. */
  function FirstMark(s: string, k: nat): (r: int)
    ensures r == -1 || (k <= r < |s| && IsGidMark(s[r]))
    ensures forall i :: k <= i < |s| && (r == -1 || i < r) ==> !IsGidMark(s[i])
    decreases |s| - k
  {
    if k >= |s| then -1
    else if IsGidMark(s[k]) then k
    else FirstMark(s, k + 1)
  }

  /** The leftmost position at or after `k` where `a` is directly followed by `b`, or -1. */
  function FirstPair(s: string, a: char, b: char, k: nat): (r: int)
    ensures r == -1 || (k <= r && r + 1 < |s| && s[r] == a && s[r + 1] == b)
    ensures forall i :: k <= i && i + 1 < |s| && (r == -1 || i < r) ==> !(s[i] == a && s[i + 1] == b)
    decreases |s| - k
  {
    if k + 1 >= |s| then -1
    else if s[k] == a && s[k + 1] == b then k
    else FirstPair(s, a, b, k + 1)
  }

  /** Capture group 1 of `/spreadsheets\/d\/([a-zA-Z0-9-_]+)/`, if the pattern occurs. */
  function SheetId(url: string): (id: Option<string>)
    ensures id.Some? ==> |id.value| >= 1 && forall k :: 0 <= k < |id.value| ==> IsIdChar(id.value[k])
    ensures id.Some? <==> exists i :: 0 <= i <= |url| && SheetAt(url, i)
    ensures FirstSheetAt(url, 0).Some? ==>
      var b := FirstSheetAt(url, 0).value + |SheetPath|;
      id == Some(url[b..RunEnd(url, b, IsIdChar)])
  {
    match FirstSheetAt(url, 0)
    case None => None
    case Some(i) =>
      var b := i + |SheetPath|;
      Some(url[b..RunEnd(url, b, IsIdChar)])
  }

  /** Capture group 1 of `/[#&?]gid=(\d+)/`, or `0` (the first grid) when it does not occur. */
  function Gid(url: string): (gid: string)
    ensures |gid| >= 1 && AllDigits(gid)
    ensures (forall i :: 0 <= i <= |url| ==> !GidAt(url, i)) ==> gid == "0"
    ensures FirstGidAt(url, 0).Some? ==>
      var b := FirstGidAt(url, 0).value + 1 + |GidKey|;
      gid == url[b..RunEnd(url, b, IsDigit)]
  {
    match FirstGidAt(url, 0)
    case None => "0"
    case Some(i) =>
      var b := i + 1 + |GidKey|;
      url[b..RunEnd(url, b, IsDigit)]
  }

  /** The CSV export address of grid `gid` of sheet `id`. */
  function ExportUrl(id: string, gid: string): string {
    Host + SheetPath + id + ExportTail + gid
  }

  /** `convertGoogleSheetUrl`. */
  function ConvertGoogleSheetUrl(url: string): (r: string)
    ensures Contains(url, PubMarker) || Contains(url, ExportMarker) ==> r == url
    ensures SheetId(url).None? ==> r == url
    ensures !Contains(url, PubMarker) && !Contains(url, ExportMarker) && SheetId(url).Some? ==>
      r == ExportUrl(SheetId(url).value, Gid(url))
  {
    if Contains(url, PubMarker) || Contains(url, ExportMarker) then url
    else match SheetId(url)
      case Some(id) => ExportUrl(id, Gid(url))
      case None => url
  }

  /** The pieces of an export address, by position. */
  lemma ExportUrlLayout(id: string, gid: string)
    ensures var u := ExportUrl(id, gid);
      |u| == 39 + |id| + 23 + |gid| &&
      u[..24] == Host && u[24..39] == SheetPath && u[39..39 + |id|] == id &&
      u[39 + |id|..39 + |id| + 23] == ExportTail && u[39 + |id| + 23..] == gid
  {
  }

  /** An export address names a CSV export, so converting it again leaves it alone. */
  lemma ExportUrlIsExport(id: string, gid: string)
    ensures Contains(ExportUrl(id, gid), ExportMarker)
    ensures ConvertGoogleSheetUrl(ExportUrl(id, gid)) == ExportUrl(id, gid)
  {
    var u := ExportUrl(id, gid);
    ExportUrlLayout(id, gid);
    assert ExportTail[..18] == ExportMarker;
    assert u[39 + |id|..39 + |id| + 18] == ExportMarker;
    assert OccursAt(u, ExportMarker, 39 + |id|);
    ContainsIff(u, ExportMarker);
  }

  lemma SchemeHasNoPathStart(s: string)
    requires s == "https://"
    ensures forall i :: 0 <= i && i + 1 < |s| ==> !(s[i] == 's' && s[i + 1] == 'p')
  {
    assert FirstPair(s, 's', 'p', 0) == -1;
  }

  lemma DomainHasNoPathStart(s: string)
    requires s == "/docs.google.com/s"
    ensures forall i :: 0 <= i && i + 1 < |s| ==> !(s[i] == 's' && s[i + 1] == 'p')
  {
    assert FirstPair(s, 's', 'p', 0) == -1;
  }

  /** No `sp` starts inside the host part, so the sheet path cannot match before it. */
  lemma HostHasNoPathStart()
    ensures forall i :: 0 <= i < 24 ==> !((Host + "s")[i] == 's' && (Host + "s")[i + 1] == 'p')
  {
    var h := Host + "s";
    assert h[..8] == "https://" && h[7..] == "/docs.google.com/s";
    SchemeHasNoPathStart(h[..8]);
    DomainHasNoPathStart(h[7..]);
    forall i | 0 <= i < 24
      ensures !(h[i] == 's' && h[i + 1] == 'p')
    {
      if i < 7 {
        assert h[i] == h[..8][i] && h[i + 1] == h[..8][i + 1];
      } else {
        assert h[i] == h[7..][i - 7] && h[i + 1] == h[7..][i - 6];
      }
    }
  }

  /** A string whose first two characters differ from those at `i` does not occur at `i`. */
  lemma NotOccursAt(s: string, t: string, i: nat)
    requires i + 1 < |s| && |t| >= 2 && !(s[i] == t[0] && s[i + 1] == t[1])
    ensures !OccursAt(s, t, i)
  {
    if i + |t| <= |s| {
      assert s[i..i + |t|][0] == s[i] && s[i..i + |t|][1] == s[i + 1];
    }
  }

  /** In an export address the sheet-id pattern first matches where the sheet path begins. */
  lemma FirstSheetAtOfExportUrl(id: string, gid: string)
    requires |id| >= 1 && IsIdChar(id[0])
    ensures FirstSheetAt(ExportUrl(id, gid), 0) == Some(24)
  {
    var u := ExportUrl(id, gid);
    ExportUrlLayout(id, gid);
    assert SheetAt(u, 24) by {
      assert u[24..24 + |SheetPath|] == SheetPath;
      assert u[39] == id[0];
    }
    HostHasNoPathStart();
    forall i | 0 <= i < 24
      ensures !SheetAt(u, i)
    {
      assert u[i] == (Host + "s")[i] && u[i + 1] == (Host + "s")[i + 1];
      NotOccursAt(u, SheetPath, i);
    }
  }

  /** Reading the sheet id back out of an export address gives the id it was built from. */
  lemma SheetIdOfExportUrl(id: string, gid: string)
    requires |id| >= 1 && forall k :: 0 <= k < |id| ==> IsIdChar(id[k])
    ensures SheetId(ExportUrl(id, gid)) == Some(id)
  {
    var u := ExportUrl(id, gid);
    ExportUrlLayout(id, gid);
    FirstSheetAtOfExportUrl(id, gid);
    var e := RunEnd(u, 39, IsIdChar);
    assert SheetId(u) == Some(u[39..e]);
    assert u[39 + |id|] == '/';
    assert e == 39 + |id|;
  }

  lemma NoMark(s: string)
    requires s == "https://docs." || s == "google.com/" || s == "spreadsheets/d/"
      || s == "/export" || s == "format=csv"
    ensures forall i :: 0 <= i < |s| ==> !IsGidMark(s[i])
  {
    assert FirstMark(s, 0) == -1;
  }

  /** Nothing in the host and path of an export address can start the grid-id pattern. */
  lemma PrefixHasNoMark(p: string)
    requires p == Host + SheetPath
    ensures forall i :: 0 <= i < |p| ==> !IsGidMark(p[i])
  {
    assert p == "https://docs." + "google.com/" + "spreadsheets/d/";
    NoMark("https://docs.");
    NoMark("google.com/");
    NoMark("spreadsheets/d/");
  }

  /** In the fixed tail of an export address the only marks are `?` at 7 and `&` at 18. */
  lemma TailMarks(t: string)
    requires t == "/export?format=csv&gid="
    ensures forall i :: 0 <= i < 18 && i != 7 ==> !IsGidMark(t[i])
    ensures t[8] == 'f'
  {
    assert t[..7] == "/export" && t[8..18] == "format=csv";
    NoMark("/export");
    NoMark("format=csv");
    forall i | 0 <= i < 18 && i != 7
      ensures !IsGidMark(t[i])
    {
      if i < 7 {
        assert t[i] == t[..7][i];
      } else {
        assert t[i] == t[8..18][i - 8];
      }
    }
  }

  /** Reading the grid id back out of an export address gives the grid id it was built from. */
  lemma GidOfExportUrl(id: string, gid: string)
    requires forall k :: 0 <= k < |id| ==> IsIdChar(id[k])
    requires |gid| >= 1 && AllDigits(gid)
    ensures Gid(ExportUrl(id, gid)) == gid
  {
    var u := ExportUrl(id, gid);
    ExportUrlLayout(id, gid);
    var m := 39 + |id| + 18;
    assert GidAt(u, m) by {
      assert u[m] == '&';
      assert u[m + 1..m + 5] == GidKey;
      assert u[m + 5] == gid[0];
    }
    var p := Host + SheetPath;
    assert u[..39] == p && u[39 + |id|..39 + |id| + 23] == ExportTail;
    PrefixHasNoMark(p);
    TailMarks(ExportTail);
    forall i | 0 <= i < m
      ensures !GidAt(u, i)
    {
      if i < 39 {
        assert u[i] == p[i];
      } else if i < 39 + |id| {
        assert u[i] == id[i - 39];
      } else if i != 39 + |id| + 7 {
        assert u[i] == ExportTail[i - 39 - |id|];
      } else {
        assert u[i + 1] == ExportTail[8];
      }
    }
    assert FirstGidAt(u, 0) == Some(m);
    var e := RunEnd(u, m + 5, IsDigit);
    assert e == |u|;
  }

  /**
   * Converting a link twice is converting it once: an address the conversion
   * produces is itself recognised as an export address.
   */
  lemma ConvertIdempotent(url: string)
    ensures ConvertGoogleSheetUrl(ConvertGoogleSheetUrl(url)) == ConvertGoogleSheetUrl(url)
  {
    var r := ConvertGoogleSheetUrl(url);
    if r != url {
      ExportUrlIsExport(SheetId(url).value, Gid(url));
    }
  }

  /**
   * A converted link still points at the same sheet and the same grid: its sheet id
   * and grid id read back as those of the original link.
   */
  lemma ConvertKeepsSheetAndGrid(url: string)
    requires SheetId(url).Some?
    ensures SheetId(ConvertGoogleSheetUrl(url)) == SheetId(url)
    ensures Gid(ConvertGoogleSheetUrl(url)) == Gid(url)
  {
    var r := ConvertGoogleSheetUrl(url);
    if r != url {
      SheetIdOfExportUrl(SheetId(url).value, Gid(url));
      GidOfExportUrl(SheetId(url).value, Gid(url));
    }
  }
}
