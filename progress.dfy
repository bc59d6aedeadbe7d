/** The batch driver's bookkeeping (`batch_analyze_with_ai.py`): the
    progress checkpoint `ProgressTracker`, the folder-name stem of a
    keyword, the keyword filter stage and the record of a keyword search.
    The checkpoint file is an input as already read and decoded; writing it
    (`save`) and the lock are not modelled, each locked method being one
    atomic step. */
module BatchAnalyze {
  import opened Strings
  import SearchAmazon

  /** One `{"keyword": ..., "error": ...}` entry of `failed_keywords`. */
  datatype FailedKeyword = FailedKeyword(keyword: string, error: string)

  /** The checkpoint record (`_data`), as `get_summary` returns it. */
  datatype Progress = Progress(completedFolders: seq<string>, currentFolder: Option<string>,
                               failedKeywords: seq<FailedKeyword>, mcpCompleted: seq<string>,
                               mcpPending: seq<string>, status: string)

  /** The checkpoint file: missing, present but not valid JSON (or not
      readable), or decoded into a record. */
  datatype CacheFile = NoFile | Unreadable | Decoded(record: Progress)

  /** `_load`: a decoded file as it is, otherwise a fresh record with empty
      lists, no current folder and status `"in_progress"`. */
  function Load(file: CacheFile): (p: Progress)
    ensures file.Decoded? ==> p == file.record
    ensures !file.Decoded? ==>
      p.completedFolders == [] && p.currentFolder == None && p.failedKeywords == []
      && p.mcpCompleted == [] && p.mcpPending == [] && p.status == "in_progress"
  {
    if file.Decoded? then file.record else Progress([], None, [], [], [], "in_progress")
  }

  /** `if x not in s: s.append(x)`. */
  function AppendNew(s: seq<string>, x: string): (r: seq<string>)
    ensures x in s ==> r == s
    ensures x !in s ==> r == s + [x]
  {
    if x in s then s else s + [x]
  }

  /** After `AppendNew` the entry is present, exactly the old entries and
      it are present, and a list without duplicates stays so. */
  lemma AppendNewKeepsDistinct(s: seq<string>, x: string)
    requires NoDuplicates(s)
    ensures x in AppendNew(s, x)
    ensures forall y :: y in AppendNew(s, x) <==> y in s || y == x
    ensures NoDuplicates(AppendNew(s, x))
  {
    var r := AppendNew(s, x);
    if x !in s {
      forall i, j | 0 <= i < j < |r|
        ensures r[i] != r[j]
      {
        if j == |s| {
          assert r[i] == s[i];
        }
      }
    }
  }

  /** On a list without duplicates, removing an entry leaves no trace of
      it and no duplicates. */
  lemma {:induction false} RemoveFirstDistinct(s: seq<string>, x: string)
    requires NoDuplicates(s)
    ensures x !in RemoveFirst(s, x)
    ensures NoDuplicates(RemoveFirst(s, x))
  {
    if s != [] {
      assert s == [s[0]] + s[1..];
      assert NoDuplicates(s[1..]) by {
        forall i, j | 0 <= i < j < |s[1..]|
          ensures s[1..][i] != s[1..][j]
        {
          assert s[1..][i] == s[i + 1] && s[1..][j] == s[j + 1];
        }
      }
      if s[0] == x {
        assert x !in s[1..] by {
          forall k | 0 <= k < |s[1..]|
            ensures s[1..][k] != x
          {
            assert s[1..][k] == s[k + 1];
          }
        }
      } else {
        RemoveFirstDistinct(s[1..], x);
        var t := RemoveFirst(s[1..], x);
        assert s[0] !in t by {
          assert s[0] !in s[1..] by {
            forall k | 0 <= k < |s[1..]|
              ensures s[1..][k] != s[0]
            {
              assert s[1..][k] == s[k + 1];
            }
          }
        }
        var r := [s[0]] + t;
        forall i, j | 0 <= i < j < |r|
          ensures r[i] != r[j]
        {
          if i == 0 {
            assert r[j] == t[j - 1];
          } else {
            assert r[i] == t[i - 1] && r[j] == t[j - 1];
          }
        }
      }
    }
  }

  /** `add_mcp_completed` on a checkpoint without duplicates: the folder is
      no longer pending, it is completed, neither list gains a duplicate,
      and every other folder keeps its place in either list. */
  lemma McpCompletedMoves(pending: seq<string>, completed: seq<string>, f: string)
    requires NoDuplicates(pending) && NoDuplicates(completed)
    ensures f !in RemoveFirst(pending, f) && NoDuplicates(RemoveFirst(pending, f))
    ensures f in AppendNew(completed, f) && NoDuplicates(AppendNew(completed, f))
    ensures forall g :: g != f ==> (g in RemoveFirst(pending, f) <==> g in pending)
    ensures forall g :: g != f ==> (g in AppendNew(completed, f) <==> g in completed)
  {
    RemoveFirstDistinct(pending, f);
    AppendNewKeepsDistinct(completed, f);
  }

  /** `set(completed_folders)` has as many members as the list has
      entries when the list has no duplicates, and never more. */
  lemma {:induction false} FolderSetSize(s: seq<string>)
    ensures |set x | x in s| <= |s|
    ensures NoDuplicates(s) ==> |set x | x in s| == |s|
  {
    if s != [] {
      var init := s[..|s| - 1];
      var last := s[|s| - 1];
      assert s == init + [last];
      FolderSetSize(init);
      var before := set x | x in init;
      assert (set x | x in s) == before + {last};
      assert |before + {last}| <= |before| + 1;
      if NoDuplicates(s) {
        assert NoDuplicates(init) by {
          forall i, j | 0 <= i < j < |init|
            ensures init[i] != init[j]
          {
            assert init[i] == s[i] && init[j] == s[j];
          }
        }
        assert last !in init by {
          forall k | 0 <= k < |init|
            ensures init[k] != last
          {
            assert init[k] == s[k];
          }
        }
        assert last !in before;
      }
    }
  }

  /** `ProgressTracker`: the fields of its `_data` dict. */
  class ProgressTracker {
    var completedFolders: seq<string>
    var currentFolder: Option<string>
    var failedKeywords: seq<FailedKeyword>
    var mcpCompleted: seq<string>
    var mcpPending: seq<string>
    var status: string

    /** `__init__` with `_load`. */
    constructor (file: CacheFile)
      ensures Summary() == Load(file)
    {
      var p := Load(file);
      completedFolders := p.completedFolders;
      currentFolder := p.currentFolder;
      failedKeywords := p.failedKeywords;
      mcpCompleted := p.mcpCompleted;
      mcpPending := p.mcpPending;
      status := p.status;
    }

    /** `get_summary`. */
    function Summary(): Progress
      reads this
    {
      Progress(completedFolders, currentFolder, failedKeywords, mcpCompleted, mcpPending, status)
    }

    method AddCompleted(folder: string)
      modifies this`completedFolders, this`currentFolder
      ensures completedFolders == AppendNew(old(completedFolders), folder)
      ensures currentFolder == Some(folder)
    {
      if folder !in completedFolders {
        completedFolders := completedFolders + [folder];
      }
      currentFolder := Some(folder);
    }

    method AddMcpPending(folder: string)
      modifies this`mcpPending
      ensures mcpPending == AppendNew(old(mcpPending), folder)
    {
      if folder !in mcpPending {
        mcpPending := mcpPending + [folder];
      }
    }

    method AddMcpCompleted(folder: string)
      modifies this`mcpPending, this`mcpCompleted
      ensures mcpPending == RemoveFirst(old(mcpPending), folder)
      ensures mcpCompleted == AppendNew(old(mcpCompleted), folder)
    {
      if folder in mcpPending {
        mcpPending := RemoveFirst(mcpPending, folder);
      }
      if folder !in mcpCompleted {
        mcpCompleted := mcpCompleted + [folder];
      }
    }

    /** `add_failed` appends a record even for a keyword already listed. */
    method AddFailed(keyword: string, error: string)
      modifies this`failedKeywords
      ensures failedKeywords == old(failedKeywords) + [FailedKeyword(keyword, error)]
    {
      failedKeywords := failedKeywords + [FailedKeyword(keyword, error)];
    }

    method SetStatus(s: string)
      modifies this`status
      ensures status == s
    {
      status := s;
    }

    /** `get_completed_folders`. */
    function CompletedFolders(): (r: set<string>)
      reads this
      ensures forall f :: f in r <==> f in completedFolders
    {
      set f | f in completedFolders
    }

    /** `get_mcp_pending`: a copy, which later changes to the tracker do not
        reach. */
    method GetMcpPending() returns (r: seq<string>)
      ensures r == mcpPending
    {
      r := mcpPending;
    }
  }

  /** A copy taken before `add_mcp_completed` still lists the folder. */
  method PendingCopyIsIndependent(t: ProgressTracker, folder: string) returns (copy: seq<string>)
    modifies t`mcpPending, t`mcpCompleted
    ensures copy == old(t.mcpPending)
    ensures t.mcpPending == RemoveFirst(copy, folder)
  {
    copy := t.GetMcpPending();
    t.AddMcpCompleted(folder);
  }

  /** The checkpoint folder stem of a keyword: spaces and slashes become
      `_`, then the first 50 characters. Unlike the conversion in the
      utility tests, nothing is stripped. */
  function SafeKeyword(keyword: string): (r: string)
    ensures |r| <= 50 && ' ' !in r && '/' !in r
    ensures |r| == if |keyword| <= 50 then |keyword| else 50
  {
    SafeName(keyword, 50)
  }

  /** Surrounding spaces are kept, as underscores. */
  lemma SafeKeywordKeepsEdges()
    ensures SafeKeyword("  spaces  ") == "__spaces__"
  {
    var r := SafeKeyword("  spaces  ");
    assert |r| == 10;
    assert r[0] == '_' && r[1] == '_' && r[2] == 's' && r[7] == 's' && r[8] == '_' && r[9] == '_';
    assert r[3] == 'p' && r[4] == 'a' && r[5] == 'c' && r[6] == 'e';
  }

  /** `_filter_keywords_stage`: `filtered` is what `filter_keywords_with_ai`
      returned. The input is kept when filtering is off or found nothing. */
  function FilterStage(keywords: seq<string>, enableFilter: bool, filtered: seq<string>): (r: seq<string>)
    ensures !enableFilter || filtered == [] ==> r == keywords
    ensures enableFilter && filtered != [] ==> r == filtered
    ensures r == [] ==> keywords == []
  {
    if !enableFilter then keywords
    else if filtered == [] then keywords
    else filtered
  }

  /** What `searcher.search` did for one keyword. */
  datatype SearchAttempt = Raised(message: string) | Returned(result: SearchAmazon.SearchResult)

  /** `_search_single_keyword`: the result goes into the cache; a search
      with no products or one that raised is recorded as failed. */
  method SearchSingleKeyword(keyword: string, attempt: SearchAttempt, cache: map<string, SearchAmazon.SearchResult>,
                             progress: ProgressTracker)
      returns (cache': map<string, SearchAmazon.SearchResult>)
    modifies progress`failedKeywords
    ensures attempt.Returned? ==> cache' == cache[keyword := attempt.result]
    ensures attempt.Raised? ==> cache' == cache
    ensures progress.failedKeywords == old(progress.failedKeywords) + FailureRecord(keyword, attempt)
  {
    cache' := cache;
    match attempt {
      case Raised(message) =>
        progress.AddFailed(keyword, message);
      case Returned(result) =>
        cache' := cache[keyword := result];
        if result.count == 0 {
          progress.AddFailed(keyword, "未找到商品");
        }
    }
  }

  /** The failure records one search adds. */
  function FailureRecord(keyword: string, attempt: SearchAttempt): (r: seq<FailedKeyword>)
    ensures |r| <= 1
    ensures r != [] <==> attempt.Raised? || attempt.result.count == 0
    ensures r != [] ==> r[0].keyword == keyword
  {
    match attempt
    case Raised(message) => [FailedKeyword(keyword, message)]
    case Returned(result) => if result.count == 0 then [FailedKeyword(keyword, "未找到商品")] else []
  }

  /** A search that found products records no failure; one that raised
      records its message. */
  lemma FailureRecordCases(keyword: string, attempt: SearchAttempt)
    ensures attempt.Returned? && attempt.result.count > 0 ==> FailureRecord(keyword, attempt) == []
    ensures attempt.Raised? ==> FailureRecord(keyword, attempt) == [FailedKeyword(keyword, attempt.message)]
  {
  }
}
