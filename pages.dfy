/** The wizard's pages and the decisions that depend only on values: which page follows
    which, which image URL the bitness buttons choose, and where "Make Another USB"
    restarts. */
module Pages {
  import opened Wrappers

  datatype PageId = AdminCheck | ImageSelect | UsbInsert | DeviceSelect | DownloadProgress | WriteOperation

  /** The integer page ids. gondarwizard.h is not part of this model; these are the ids the
      integration test's comments walk through (0, 3, 4, 5, 6, 7). */
  function Id(p: PageId): int {
    match p
    case AdminCheck => 0
    case ImageSelect => 3
    case UsbInsert => 4
    case DeviceSelect => 5
    case DownloadProgress => 6
    case WriteOperation => 7
  }

  /** The page registered under an id, if any (QWizard::page). */
  function PageOf(id: int): (r: Option<PageId>)
    ensures r.Some? ==> Id(r.value) == id
    ensures r.None? ==> forall p: PageId :: Id(p) != id
  {
    if id == 0 then Some(AdminCheck)
    else if id == 3 then Some(ImageSelect)
    else if id == 4 then Some(UsbInsert)
    else if id == 5 then Some(DeviceSelect)
    else if id == 6 then Some(DownloadProgress)
    else if id == 7 then Some(WriteOperation)
    else None
  }

  /** QWizardPage::nextId when not overridden: the registered page with the next higher id,
      or none (-1) on the last page. */
  function DefaultNextId(p: PageId): (r: Option<PageId>)
    ensures r.Some? ==> Id(p) < Id(r.value)
    ensures r.Some? ==> forall q: PageId :: Id(p) < Id(q) ==> Id(r.value) <= Id(q)
    ensures r.None? <==> forall q: PageId :: Id(q) <= Id(p)
  {
    match p
    case AdminCheck => Some(ImageSelect)
    case ImageSelect => Some(UsbInsert)
    case UsbInsert => Some(DeviceSelect)
    case DeviceSelect => Some(DownloadProgress)
    case DownloadProgress => Some(WriteOperation)
    case WriteOperation => None
  }

  /** QWizardPage::nextId of each page. Only DeviceSelectPage overrides it: once the
      download page reports itself complete, the device page skips it and goes straight to
      the write page. */
  function NextId(p: PageId, downloadFinished: bool): (r: Option<PageId>)
    ensures p != DeviceSelect ==> r == DefaultNextId(p)
    ensures p == DeviceSelect ==> r.Some?
    ensures p == DeviceSelect ==> (r == Some(WriteOperation) <==> downloadFinished)
    ensures p == DeviceSelect ==> (r == Some(DownloadProgress) <==> !downloadFinished)
    ensures r.Some? ==> Id(p) < Id(r.value)
    ensures r.None? <==> p == WriteOperation
  {
    if p == DeviceSelect then
      if downloadFinished then Some(WriteOperation) else Some(DownloadProgress)
    else
      DefaultNextId(p)
  }

  /** The start id "Make Another USB" sets: usbInsertPage.nextId() - 1. With consecutive ids
      around the USB page this lands on the USB page itself. */
  function MakeAnotherStartId(): (id: int)
    ensures PageOf(id) == Some(UsbInsert)
  {
    Id(DefaultNextId(UsbInsert).value) - 1
  }

  /** The two bitness radio buttons of the image page. */
  datatype Bitness = ThirtyTwo | SixtyFour

  const CdnHost: string := "https://ddnynf025unax.cloudfront.net/"

  /** The release directory and file stem of an image, e.g. cloudready-free-56.3.80-32-bit. */
  function BuildName(version: string, bits: string): string {
    "cloudready-free-" + version + "-" + bits + "-bit"
  }

  /** <host><build>/<build>.bin.zip */
  function ImageUrl(build: string): string {
    CdnHost + build + "/" + build + ".bin.zip"
  }

  const ThirtyTwoUrl: string := ImageUrl(BuildName("56.3.80", "32"))
  const SixtyFourUrl: string := ImageUrl(BuildName("56.3.82", "64"))

  lemma UrlsDiffer()
    ensures ThirtyTwoUrl != SixtyFourUrl
  {
    var i := |CdnHost| + |"cloudready-free-"| + |"56.3.80"| + 1;
    assert ThirtyTwoUrl[i] == '3';
    assert SixtyFourUrl[i] == '6';
  }

  /** ImageSelectPage::getUrl, given the checked button (None when none is checked). */
  function GetUrl(checked: Option<Bitness>): (url: string)
    ensures url == ThirtyTwoUrl <==> checked == Some(ThirtyTwo)
    ensures url == SixtyFourUrl <==> checked != Some(ThirtyTwo)
  {
    UrlsDiffer();
    match checked
    case Some(ThirtyTwo) => ThirtyTwoUrl
    case Some(SixtyFour) => SixtyFourUrl
    case None => SixtyFourUrl
  }
}
