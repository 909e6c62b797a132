/**
 * The report downloader: validates the requested time granularity, then asks the portal for
 * one spreadsheet per `(study type, study id)` pair and saves each successful answer as
 * `<folder>/<type>-<id>.xlsx`. A failed request is logged and the next study is tried.
 *
 * The HTTP request is a parameter `fetch` from a URL to a response, or `None` where
 * `requests.get` raises.
 */
module ReportDownloads {
  import opened Wrappers
  import opened Text
  import opened Sequences
  import opened LocalDisk
  import opened MiovisionInfo

  /** The labels the provider accepts, in the order its mapping lists them. */
  const TimeIntervalLabels: seq<string> := ["1 minute", "5 minutes", "10 minutes", "30 minutes", "1 hour"]

  /** The labels the provider accepts and their length in seconds. */
  const TimeIntervalMapping: map<string, nat> :=
    map["1 minute" := 60, "5 minutes" := 300, "10 minutes" := 600, "30 minutes" := 1800, "1 hour" := 3600]

  datatype DownloadsConfig = DownloadsConfig(authContextFileName: string, timeInterval: nat, baseFolderPath: string)

  /** The `ValueError` for an unknown label. Its message lists the accepted labels; it does not
      name the rejected one. */
  datatype DownloadsError = UnknownTimeInterval(accepted: seq<string>)

  /** The configuration `__init__` stores, or the `ValueError` it raises. */
  function MakeConfig(authContextFileName: string, folderPath: string, timeInterval: string)
    : (r: Result<DownloadsConfig, DownloadsError>)
    ensures r.Failure? <==> timeInterval !in TimeIntervalMapping
    ensures r.Failure? ==> r.error == UnknownTimeInterval(TimeIntervalLabels)
    ensures r.Success? ==> r.value.authContextFileName == authContextFileName
                           && r.value.baseFolderPath == folderPath
                           && r.value.timeInterval == TimeIntervalMapping[timeInterval]
  {
    if timeInterval !in TimeIntervalMapping then Failure(UnknownTimeInterval(TimeIntervalLabels))
    else Success(DownloadsConfig(authContextFileName, TimeIntervalMapping[timeInterval], folderPath))
  }

  /** The five entries of the mapping; the labels an error lists are exactly its keys. */
  lemma MappingEntries()
    ensures forall l :: l in TimeIntervalMapping <==> l in TimeIntervalLabels
    ensures TimeIntervalMapping["1 minute"] == 60 && TimeIntervalMapping["5 minutes"] == 300
    ensures TimeIntervalMapping["10 minutes"] == 600 && TimeIntervalMapping["30 minutes"] == 1800
    ensures TimeIntervalMapping["1 hour"] == 3600
  {
  }

  const ReportUrlPrefix: string := "https://datalink.miovision.com/studies/"
  const ReportUrlMiddle: string :=
    "/report?download_token=1727917620&report%5Bformat%5D=xlsx&report%5Bbin_size%5D="
  const ReportUrlSuffix: string :=
    "&report%5Bworksheet_grouping%5D=by_direction&report%5Bapproach_order%5D=n_ne_e_se_s_sw_w_nw"
    + "&report%5Binclude_raw_data%5D=false&report%5Bforced_peak_enabled%5D=false"

  /** The report request for one study with the configured bin size in seconds. */
  function ReportUrl(studyId: string, seconds: nat): string
  {
    ReportUrlPrefix + studyId + ReportUrlMiddle + NatToString(seconds) + ReportUrlSuffix
  }

  /** `ReportUrl` for each study at a fixed bin size. */
  function StudyUrl(seconds: nat): StudyTypeId -> string
  {
    (study: StudyTypeId) => ReportUrl(study.studyId, seconds)
  }

  /** The request names the study and carries its bin size: both can be read back from it. */
  lemma ReportUrlParts(studyId: string, seconds: nat)
    ensures var u := ReportUrl(studyId, seconds);
      var n := |ReportUrlPrefix| + |studyId|;
      && u[..|ReportUrlPrefix|] == ReportUrlPrefix
      && u[|ReportUrlPrefix|..n] == studyId
      && u[n..n + |ReportUrlMiddle|] == ReportUrlMiddle
      && DigitsValue(u[n + |ReportUrlMiddle|..|u| - |ReportUrlSuffix|]) == seconds
  {
    FiveParts(ReportUrlPrefix, studyId, ReportUrlMiddle, NatToString(seconds), ReportUrlSuffix);
  }

  /** `f'{BASE_FOLDER_PATH}/{study_type}-{study_id}.xlsx'`. */
  function TargetPath(folder: string, study: StudyTypeId): string
  {
    folder + "/" + study.studyType + "-" + study.studyId + ".xlsx"
  }

  datatype Response = Response(statusCode: int, content: seq<byte>)

  /** The answer that gets saved: a response with status 200. */
  predicate Saved(answer: Option<Response>)
  {
    answer.Some? && answer.value.statusCode == 200
  }

  /** The disk after the download loop has handled `studies`. */
  function Downloaded(entries: map<string, Entry>, config: DownloadsConfig, studies: seq<StudyTypeId>,
                      fetch: string -> Option<Response>): map<string, Entry>
  {
    if studies == [] then entries
    else
      var before := Downloaded(entries, config, studies[..|studies| - 1], fetch);
      var study := studies[|studies| - 1];
      var answer := fetch(ReportUrl(study.studyId, config.timeInterval));
      if Saved(answer) then before[TargetPath(config.baseFolderPath, study) := File(answer.value.content)]
      else before
  }

  /** One more study: its report is written at its target when the request answers 200. */
  lemma DownloadedSnoc(entries: map<string, Entry>, config: DownloadsConfig, studies: seq<StudyTypeId>,
                       fetch: string -> Option<Response>, i: nat)
    requires i < |studies|
    ensures var before := Downloaded(entries, config, studies[..i], fetch);
      var answer := fetch(ReportUrl(studies[i].studyId, config.timeInterval));
      Downloaded(entries, config, studies[..i + 1], fetch)
        == if Saved(answer) then before[TargetPath(config.baseFolderPath, studies[i]) := File(answer.value.content)]
           else before
  {
    assert studies[..i + 1][..i] == studies[..i];
  }

  /** The loop writes nothing but target files: any other path keeps its presence and contents. */
  lemma {:induction false} DownloadedLeavesOtherPaths(entries: map<string, Entry>, config: DownloadsConfig,
                                                      studies: seq<StudyTypeId>, fetch: string -> Option<Response>,
                                                      p: string)
    requires forall s :: s in studies ==> TargetPath(config.baseFolderPath, s) != p
    ensures var after := Downloaded(entries, config, studies, fetch);
      && (p in after <==> p in entries) && (p in entries ==> after[p] == entries[p])
  {
    if studies != [] {
      var init := studies[..|studies| - 1];
      assert forall s :: s in init ==> s in studies;
      assert studies[|studies| - 1] in studies;
      DownloadedLeavesOtherPaths(entries, config, init, fetch, p);
    }
  }

  /** A study whose target no other study shares: its file holds the report exactly when the
      request answered 200, and a failed request leaves the path as it was, whatever happened
      to the studies before or after it. */
  lemma {:induction false} DownloadedOfStudy(entries: map<string, Entry>, config: DownloadsConfig,
                                             studies: seq<StudyTypeId>, fetch: string -> Option<Response>, k: nat)
    requires k < |studies|
    requires forall j :: 0 <= j < |studies| && j != k ==>
      TargetPath(config.baseFolderPath, studies[j]) != TargetPath(config.baseFolderPath, studies[k])
    ensures var after := Downloaded(entries, config, studies, fetch);
      var p := TargetPath(config.baseFolderPath, studies[k]);
      var answer := fetch(ReportUrl(studies[k].studyId, config.timeInterval));
      && (Saved(answer) ==> p in after && after[p] == File(answer.value.content))
      && (!Saved(answer) ==> (p in after <==> p in entries) && (p in entries ==> after[p] == entries[p]))
  {
    var last := |studies| - 1;
    var init := studies[..last];
    var p := TargetPath(config.baseFolderPath, studies[k]);
    DownloadedSnoc(entries, config, studies, fetch, last);
    assert studies[..last + 1] == studies;
    if k == last {
      forall s | s in init ensures TargetPath(config.baseFolderPath, s) != p {
        var j :| 0 <= j < |init| && init[j] == s;
        assert studies[j] == s;
      }
      DownloadedLeavesOtherPaths(entries, config, init, fetch, p);
    } else {
      assert studies[k] == init[k];
      forall j | 0 <= j < |init| && j != k
        ensures TargetPath(config.baseFolderPath, init[j]) != TargetPath(config.baseFolderPath, init[k])
      {
        assert init[j] == studies[j];
      }
      DownloadedOfStudy(entries, config, init, fetch, k);
    }
  }

  /** The provider: the pairs to download and the validated configuration. */
  class DownloadsProvider {
    const miovisionInfo: seq<StudyTypeId>
    const config: DownloadsConfig

    constructor(miovisionInfo: seq<StudyTypeId>, config: DownloadsConfig)
      ensures this.miovisionInfo == miovisionInfo && this.config == config
    {
      this.miovisionInfo := miovisionInfo;
      this.config := config;
    }

    /** `download_files`: creates the base folder when absent, then requests every study once,
        in list order, and writes the report of each request answered with 200. `requested`
        lists the URLs asked for. */
    method DownloadFiles(disk: Disk, fetch: string -> Option<Response>) returns (requested: seq<string>)
      modifies disk
      ensures disk.entries == Downloaded(WithFolder(old(disk.entries), config.baseFolderPath),
                                         config, miovisionInfo, fetch)
      ensures |requested| == |miovisionInfo|
      ensures forall k :: 0 <= k < |miovisionInfo| ==>
        requested[k] == ReportUrl(miovisionInfo[k].studyId, config.timeInterval)
    {
      if !disk.Exists(config.baseFolderPath) {
        disk.MakeDirectory(config.baseFolderPath);
      }
      ghost var start := disk.entries;
      requested := [];
      for i := 0 to |miovisionInfo|
        invariant disk.entries == Downloaded(start, config, miovisionInfo[..i], fetch)
        invariant requested == Map(StudyUrl(config.timeInterval), miovisionInfo[..i])
      {
        var study := miovisionInfo[i];
        var url := ReportUrl(study.studyId, config.timeInterval);
        var response := fetch(url);
        MapSnoc(StudyUrl(config.timeInterval), miovisionInfo, i);
        requested := requested + [url];
        DownloadedSnoc(start, config, miovisionInfo, fetch, i);
        if response.Some? && response.value.statusCode == 200 {
          disk.WriteFile(config.baseFolderPath + "/" + study.studyType + "-" + study.studyId + ".xlsx",
                         response.value.content);
        }
      }
      assert miovisionInfo[..|miovisionInfo|] == miovisionInfo;
      MapAt(StudyUrl(config.timeInterval), miovisionInfo);
    }
  }

  /** `DownloadsProvider(...)`: the provider, or the `ValueError` for an unknown label. */
  method NewDownloadsProvider(authContextFileName: string, folderPath: string,
                              miovisionStudiesTypesIds: seq<StudyTypeId>, timeInterval: string)
    returns (r: Result<DownloadsProvider, DownloadsError>)
    ensures r.Failure? <==> timeInterval !in TimeIntervalMapping
    ensures r.Failure? ==> r.error == UnknownTimeInterval(TimeIntervalLabels)
    ensures r.Success? ==> fresh(r.value) && r.value.miovisionInfo == miovisionStudiesTypesIds
                           && r.value.config == MakeConfig(authContextFileName, folderPath, timeInterval).value
  {
    var config := MakeConfig(authContextFileName, folderPath, timeInterval);
    if config.Failure? {
      return Failure(config.error);
    }
    var provider := new DownloadsProvider(miovisionStudiesTypesIds, config.value);
    r := Success(provider);
  }
}
