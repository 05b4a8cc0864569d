/**
 How `getRestoreHandle` answers from the four lists it reads: uploads and deletions, each from the
 database and from the fallback file.
 */
module RestoreList {
  import opened Text

  datatype UserFiles = UserFiles(user: string, files: seq<string>)

  // What a list is when it could not be read.
  const UNREAD := UserFiles("", [])

  /** The members of `files` that `others` does not have, in order. */
  function Without(files: seq<string>, others: seq<string>): (rest: seq<string>)
    ensures forall h :: h in rest <==> h in files && h !in others
  {
    if files == [] then []
    else
      var last := files[|files| - 1];
      Without(files[..|files| - 1], others) + if last in others then [] else [last]
  }

  /** Each entry is kept or left out on its own, so that order and repetitions stay. */
  lemma {:induction false} WithoutEach(files: seq<string>, h: string, others: seq<string>)
    ensures Without(files + [h], others) == Without(files, others) + if h in others then [] else [h]
  {
    assert (files + [h])[..|files|] == files;
  }

  /** Only what is in the other list matters, not how often or in which order. */
  lemma {:induction false} WithoutSame(files: seq<string>, others: seq<string>, same: seq<string>)
    requires forall h :: h in others <==> h in same
    ensures Without(files, others) == Without(files, same)
  {
    if files != [] {
      WithoutSame(files[..|files| - 1], others, same);
    }
  }

  function OwnFiles(list: UserFiles, account: string): seq<string> {
    if list.user == account then list.files else []
  }

  /** The quadratic loops of the handler: keeps what no entry of `others` equals. */
  method Subtract(files: seq<string>, others: seq<string>) returns (rest: seq<string>)
    ensures rest == Without(files, others)
  {
    rest := [];
    for i := 0 to |files|
      invariant rest == Without(files[..i], others)
    {
      var repeated := false;
      var j := 0;
      while j < |others| && !repeated
        invariant 0 <= j <= |others|
        invariant repeated <==> files[i] in others[..j]
      {
        repeated := files[i] == others[j];
        j := j + 1;
      }
      assert files[..i + 1][..i] == files[..i];
      assert others[..|others|] == others;
      if !repeated {
        rest := rest + [files[i]];
      }
    }
    assert files[..|files|] == files;
  }

  method MergeUploads(account: string, cache: UserFiles, file: UserFiles) returns (saved: seq<string>)
    ensures saved == OwnFiles(file, account) + Without(OwnFiles(cache, account), file.files)
  {
    saved := OwnFiles(file, account);
    if cache.user == account {
      var rest := Subtract(cache.files, file.files);
      saved := saved + rest;
    }
  }

  ghost predicate Owned(list: UserFiles, account: string) {
    list.user == account || list.files == []
  }

  /** The deletion lists are compared at the same index; None is the index panic this can run into. */
  method MergeDeletions(account: string, cache: UserFiles, file: UserFiles) returns (deleted: Option<seq<string>>)
    ensures deleted.None? <==> cache.user == account && 0 < |file.files| < |cache.files|
    ensures deleted.Some? ==> forall h :: h in deleted.value ==>
      h in OwnFiles(file, account) || h in OwnFiles(cache, account)
    ensures deleted.Some? ==> forall h :: h in OwnFiles(file, account) ==> h in deleted.value
    ensures deleted.Some? && Owned(file, account) ==> forall h :: h in OwnFiles(cache, account) ==> h in deleted.value
  {
    var result := OwnFiles(file, account);
    if cache.user == account {
      for i := 0 to |cache.files|
        invariant file.files != [] ==> i <= |file.files|
        invariant forall h :: h in result ==> h in OwnFiles(file, account) || h in cache.files
        invariant forall h :: h in OwnFiles(file, account) ==> h in result
        invariant Owned(file, account) ==> forall k :: 0 <= k < i ==> cache.files[k] in result
      {
        var repeated := false;
        var j := 0;
        while j < |file.files| && !repeated
          invariant 0 <= j <= |file.files|
          invariant j > 0 ==> i < |file.files|
          invariant repeated ==> i < |file.files| && cache.files[i] == file.files[i]
        {
          if i >= |file.files| {
            return None;
          }
          repeated := cache.files[i] == file.files[i];
          j := j + 1;
        }
        if !repeated {
          result := result + [cache.files[i]];
        }
      }
    }
    return Some(result);
  }

  /** First what the fallback file has, then what only the database has, each in its order and with repetitions. */
  ghost predicate InOrder(
    answer: seq<string>, uploadCache: UserFiles, uploadFile: UserFiles, deleteCache: UserFiles, deleteFile: UserFiles)
  {
    var uploads := uploadFile.files + Without(uploadCache.files, uploadFile.files);
    answer == Without(uploads, deleteFile.files + deleteCache.files)
  }

  /** The answer as the list of what was uploaded and not deleted. */
  method Answer(
    account: string, uploadCache: UserFiles, uploadFile: UserFiles, deleteCache: UserFiles, deleteFile: UserFiles)
    returns (result: Option<seq<string>>)
    ensures result.None? <==> deleteCache.user == account && 0 < |deleteFile.files| < |deleteCache.files|
    ensures result.Some? && Owned(uploadCache, account) && Owned(uploadFile, account)
            && Owned(deleteCache, account) && Owned(deleteFile, account) ==>
      forall h :: h in result.value <==>
        (h in uploadCache.files || h in uploadFile.files) && h !in deleteCache.files && h !in deleteFile.files
    ensures result.Some? && Owned(uploadCache, account) && Owned(uploadFile, account)
            && Owned(deleteCache, account) && Owned(deleteFile, account) ==>
      InOrder(result.value, uploadCache, uploadFile, deleteCache, deleteFile)
  {
    var saved := MergeUploads(account, uploadCache, uploadFile);
    var deleted := MergeDeletions(account, deleteCache, deleteFile);
    if deleted.None? {
      return None;
    }
    if Owned(deleteCache, account) && Owned(deleteFile, account) {
      WithoutSame(saved, deleted.value, deleteFile.files + deleteCache.files);
    }
    var rest := Subtract(saved, deleted.value);
    return Some(rest);
  }
}
