/**
 * What the three list-consuming components derive from the cached newest-first image list:
 * the latest-caption panel, the recent-activity sidebar and the history grid. Each reads the
 * same query; rendering, toasts, clipboard and file-download mechanics are not modelled.
 */
module Views {
  import opened Common
  import opened Strings
  import opened Schema
  import opened Storage
  import opened CaptionExport

  /**
   * The state of the image-list query as a component sees it: still loading, failed with an
   * unauthorised error, and the data (undefined until fetched or after another error).
   */
  datatype Query = Query(isLoading: bool, unauthorized: bool, data: Option<seq<Image>>)

  /** A text file handed to the browser for download. */
  datatype Download = Download(filename: string, content: string)

  /** The export download both the panel and each history card build for one image. */
  function DownloadFor(img: Image, uploaded: string): Download
  {
    Download(ExportFileName(img), ExportText(img, uploaded))
  }

  // ---------------------------------------------------------------------------
  // Latest captions panel
  // ---------------------------------------------------------------------------

  /** `images?.[0]`: the first element of the list, when there is one. */
  function LatestImage(data: Option<seq<Image>>): (r: Option<Image>)
    ensures r.Some? <==> data.Some? && |data.value| > 0
    ensures r.Some? ==> r.value == data.value[0]
  {
    if data.Some? && |data.value| > 0 then Some(data.value[0]) else None
  }

  datatype CaptionPanel = PanelRedirect | PanelLoading | Placeholder | ShowLatest(image: Image)

  /** The panel: the unauthorised redirect, then the skeleton, then the placeholder or the latest image. */
  function CaptionResults(q: Query): (r: CaptionPanel)
    ensures q.unauthorized ==> r == PanelRedirect
    ensures !q.unauthorized && q.isLoading ==> r == PanelLoading
    ensures !q.unauthorized && !q.isLoading ==>
      (r == Placeholder <==> LatestImage(q.data).None?)
    ensures !q.unauthorized && !q.isLoading && LatestImage(q.data).Some? ==>
      r == ShowLatest(LatestImage(q.data).value)
    ensures r.ShowLatest? ==> Some(r.image) == LatestImage(q.data)
  {
    if q.unauthorized then PanelRedirect
    else if q.isLoading then PanelLoading
    else match LatestImage(q.data)
      case None => Placeholder
      case Some(img) => ShowLatest(img)
  }

  /** The panel's download button: nothing without a latest image, else the same export the history grid builds. */
  function DownloadLatest(data: Option<seq<Image>>, formatDate: nat -> string): (r: Option<Download>)
    ensures r.None? <==> LatestImage(data).None?
    ensures r.Some? ==> var img := LatestImage(data).value;
      r.value == DownloadFor(img, formatDate(img.createdAt))
  {
    match LatestImage(data)
    case None => None
    case Some(img) => Some(DownloadFor(img, formatDate(img.createdAt)))
  }

  /** The copy buttons: a null caption copies the empty string. */
  function CopyText(caption: Option<string>): (r: string)
    ensures caption.None? ==> r == []
    ensures caption.Some? ==> r == caption.value
  {
    caption.GetOr([])
  }

  // ---------------------------------------------------------------------------
  // Recent activity sidebar
  // ---------------------------------------------------------------------------

  /** `images?.slice(0, 3) || []`: the first three images at most; an undefined list is empty. */
  function RecentImages(data: Option<seq<Image>>): (r: seq<Image>)
    ensures data.None? ==> r == []
    ensures data.Some? ==> |r| == (if |data.value| < 3 then |data.value| else 3) && r <= data.value
  {
    match data
    case None => []
    case Some(images) => if |images| <= 3 then images else images[..3]
  }

  /** `captionEnglish?.slice(0, 30)` followed by `...`; a null caption shows only the dots. */
  function Preview(caption: Option<string>): (r: string)
    ensures 3 <= |r| <= 33 && r[|r| - 3..] == "..."
    ensures caption.Some? ==> r[..|r| - 3] <= caption.value
    ensures caption.Some? ==> |r| == 3 + (if |caption.value| < 30 then |caption.value| else 30)
    ensures caption.None? ==> r == "..."
  {
    var shown := match caption
      case Some(s) => Take(s, 30)
      case None => [];
    assert (shown + "...")[..|shown|] == shown;
    shown + "..."
  }

  datatype RecentCard = RecentCard(id: ImageId, imageUrl: string, preview: string)

  datatype Sidebar = SidebarRedirect | SidebarLoading | NoRecentUploads | RecentCards(cards: seq<RecentCard>)

  /** The sidebar: redirect, skeleton, the empty notice, or one card per recent image in order. */
  function RecentActivity(q: Query): (r: Sidebar)
    ensures q.unauthorized ==> r == SidebarRedirect
    ensures !q.unauthorized && q.isLoading ==> r == SidebarLoading
    ensures !q.unauthorized && !q.isLoading ==> (r == NoRecentUploads <==> RecentImages(q.data) == [])
    ensures !q.unauthorized && !q.isLoading && RecentImages(q.data) != [] ==> r.RecentCards?
    ensures r.RecentCards? ==> var shown := RecentImages(q.data);
      && |r.cards| == |shown| <= 3
      && forall i :: 0 <= i < |shown| ==>
           r.cards[i] == RecentCard(shown[i].id, shown[i].imageUrl, Preview(shown[i].captionEnglish))
  {
    if q.unauthorized then SidebarRedirect
    else if q.isLoading then SidebarLoading
    else
      var shown := RecentImages(q.data);
      if |shown| == 0 then NoRecentUploads
      else RecentCards(seq(|shown|, i requires 0 <= i < |shown| =>
                         RecentCard(shown[i].id, shown[i].imageUrl, Preview(shown[i].captionEnglish))))
  }

  // ---------------------------------------------------------------------------
  // History grid
  // ---------------------------------------------------------------------------

  datatype HistoryCard = HistoryCard(id: ImageId, imageUrl: string, originalName: string,
                                     english: Option<string>, telugu: Option<string>, hindi: Option<string>)

  datatype HistoryView = HistoryRedirect | HistoryLoading | EmptyState | Cards(cards: seq<HistoryCard>)

  function CardOf(img: Image): HistoryCard
  {
    HistoryCard(img.id, img.imageUrl, img.originalName, img.captionEnglish, img.captionTelugu, img.captionHindi)
  }

  /** The grid: an absent or empty list shows the empty state, otherwise one card per image, in order. */
  function HistoryGrid(q: Query): (r: HistoryView)
    ensures q.unauthorized ==> r == HistoryRedirect
    ensures !q.unauthorized && q.isLoading ==> r == HistoryLoading
    ensures !q.unauthorized && !q.isLoading ==>
      (r == EmptyState <==> q.data.None? || |q.data.value| == 0)
    ensures !q.unauthorized && !q.isLoading && q.data.Some? && |q.data.value| > 0 ==> r.Cards?
    ensures r.Cards? ==> q.data.Some? && |r.cards| == |q.data.value|
    ensures r.Cards? ==> forall i :: 0 <= i < |r.cards| ==> r.cards[i] == CardOf(q.data.value[i])
  {
    if q.unauthorized then HistoryRedirect
    else if q.isLoading then HistoryLoading
    else if q.data.None? || |q.data.value| == 0 then EmptyState
    else
      var images := q.data.value;
      Cards(seq(|images|, i requires 0 <= i < |images| => CardOf(images[i])))
  }

  /**
   * The latest-caption download is a text file named after the latest image whose contents
   * read back to that image's name, upload time and captions.
   */
  lemma LatestDownloadReadsBack(data: Option<seq<Image>>, formatDate: nat -> string)
    requires LatestImage(data).Some?
    requires var img := LatestImage(data).value;
      NoNewline(img.originalName) && NoNewline(formatDate(img.createdAt))
      && NoNewline(Interpolate(img.captionEnglish)) && NoNewline(Interpolate(img.captionTelugu))
      && NoNewline(Interpolate(img.captionHindi))
    ensures var img := data.value[0];
      var d := DownloadLatest(data, formatDate);
      && d.Some?
      && d.value.filename == ExportFileName(img)
      && ParseExport(d.value.content)
         == Some(ExportFields(img.originalName, formatDate(img.createdAt), Interpolate(img.captionEnglish),
                              Interpolate(img.captionTelugu), Interpolate(img.captionHindi)))
  {
    var img := data.value[0];
    ExportRoundTrip(img, formatDate(img.createdAt));
  }

  /**
   * The three views read one query consistently: when it has data, the panel's image, the
   * first sidebar card and the first history card are the same image, and the sidebar's cards
   * are the history grid's first cards.
   */
  lemma ViewsAgree(q: Query)
    requires !q.unauthorized && !q.isLoading && q.data.Some? && |q.data.value| > 0
    ensures CaptionResults(q).ShowLatest? && RecentActivity(q).RecentCards? && HistoryGrid(q).Cards?
    ensures CaptionResults(q).image.id == RecentActivity(q).cards[0].id == HistoryGrid(q).cards[0].id
    ensures forall i :: 0 <= i < |RecentActivity(q).cards| ==>
      RecentActivity(q).cards[i].id == HistoryGrid(q).cards[i].id
  {
  }

  // ---------------------------------------------------------------------------
  // Against the store's ordering
  // ---------------------------------------------------------------------------

  /** Given the server's newest-first listing, the panel shows the requester's newest image. */
  lemma LatestIsNewest(s: Store, u: UserId)
    requires Valid(s)
    ensures var latest := LatestImage(Some(GetImagesByUserId(s, u)));
      && (latest.None? <==> forall x :: x in s.images ==> x.userId != u)
      && (latest.Some? ==>
            && latest.value in s.images && latest.value.userId == u
            && forall x :: x in s.images && x.userId == u ==> x.createdAt <= latest.value.createdAt)
  {
    var l := GetImagesByUserId(s, u);
    GetImagesByUserIdNewestFirst(s, u);
    if |l| > 0 {
      forall x | x in s.images && x.userId == u
        ensures x.createdAt <= l[0].createdAt
      {
        var j :| 0 <= j < |l| && l[j] == x;
      }
    }
  }

  /** The sidebar's images are the requester's three newest: each is newer than any image left out. */
  lemma RecentAreNewest(s: Store, u: UserId)
    requires Valid(s)
    ensures var l := GetImagesByUserId(s, u);
      var shown := RecentImages(Some(l));
      && (forall x :: x in shown ==> x in s.images && x.userId == u)
      && (|shown| < 3 ==> forall x :: x in s.images && x.userId == u ==> x in shown)
      && forall x, y :: x in shown && y in s.images && y.userId == u && y !in shown ==> x.createdAt > y.createdAt
  {
    var l := GetImagesByUserId(s, u);
    var shown := RecentImages(Some(l));
    GetImagesByUserIdNewestFirst(s, u);
    assert shown == l[..|shown|];
    forall x, y | x in shown && y in s.images && y.userId == u && y !in shown
      ensures x.createdAt > y.createdAt
    {
      var i :| 0 <= i < |shown| && shown[i] == x;
      var j :| 0 <= j < |l| && l[j] == y;
      assert l[i] == x;
    }
  }
}
