/** FolderManagerForm: the configuration dialog's editing of the folder list and the extension
    list. Each backing list is mirrored by the Items of a ListBox; the dialog widgets themselves
    (layout, FolderBrowserDialog, key handling, focus) are not modelled. */
module FolderManager {
  import opened Wrappers
  import opened Text

  /** An extension as OnAddExtension stores it: starts with '.', has no upper-case letter and no
      surrounding white space. */
  predicate IsCanonicalExtension(ext: string) {
    |ext| > 0 && ext[0] == '.' && HasNoUpper(ext) && IsTrimmed(ext)
  }

  /** The text OnAddExtension takes from the input box, normalised: None when the trimmed text is
      empty; otherwise a canonical extension equal, ignoring case, to the trimmed text with a dot
      prepended when it lacked one. */
  function NormalizeExtension(text: string): (r: Option<string>)
    ensures r.None? <==> Trim(text) == ""
    ensures r.Some? ==> IsCanonicalExtension(r.value)
    ensures r.Some? ==> var t := Trim(text);
              Fold(r.value) == Fold(if t[0] == '.' then t else "." + t)
  {
    var lowered := ToLowerInvariant(Trim(text));
    LoweredInput(Trim(text));
    if lowered == "" then None
    else if lowered[0] == '.' then Some(lowered)
    else Some("." + lowered)
  }

  /** The facts about the trimmed, lower-cased input that NormalizeExtension relies on. */
  lemma LoweredInput(t: string)
    requires IsTrimmed(t)
    ensures var lowered := ToLowerInvariant(t);
            IsTrimmed(lowered) && (lowered != [] ==> (lowered[0] == '.' <==> t[0] == '.'))
            && Fold("." + lowered) == Fold("." + t)
            && (lowered != [] && lowered[0] != '.' ==> IsCanonicalExtension("." + lowered))
  {
    var lowered := ToLowerInvariant(t);
    ToLowerKeepsTrimmed(t);
    FoldPrepend('.', lowered);
    FoldPrepend('.', t);
    if lowered != [] {
      assert FoldChar(lowered[0]) == Fold(lowered)[0] == Fold(t)[0] == FoldChar(t[0]);
    }
  }

  /** A canonical extension typed again is stored unchanged; so normalising is idempotent. */
  lemma NormalizeCanonical(ext: string)
    requires IsCanonicalExtension(ext)
    ensures NormalizeExtension(ext) == Some(ext)
  {
    TrimOfTrimmed(ext);
    ToLowerOfLower(ext);
  }

  class FolderManagerForm {
    /** _folders and _extensions */
    var folders: seq<string>
    var extensions: seq<string>
    /** _foldersListBox.Items and _extensionsListBox.Items */
    var folderItems: seq<string>
    var extensionItems: seq<string>
    /** _extensionInput.Text, which the user edits */
    var extensionInput: string

    /** Each ListBox shows exactly its backing list. */
    ghost predicate Valid()
      reads this
    {
      folderItems == folders && extensionItems == extensions
    }

    constructor (currentFolders: seq<string>, currentExtensions: seq<string>)
      ensures Valid()
      ensures folders == currentFolders && extensions == currentExtensions && extensionInput == ""
    {
      folders := currentFolders;
      extensions := currentExtensions;
      folderItems, extensionItems := [], [];
      extensionInput := "";
      new;
      BuildFoldersTab();
      BuildExtensionsTab();
    }

    /** Fills a new folder ListBox from the backing list. */
    method BuildFoldersTab()
      modifies this`folderItems
      ensures folderItems == folders
    {
      folderItems := [];
      for i := 0 to |folders|
        invariant folderItems == folders[..i]
      {
        folderItems := folderItems + [folders[i]];
      }
    }

    /** Fills a new extension ListBox from the backing list. */
    method BuildExtensionsTab()
      modifies this`extensionItems
      ensures extensionItems == extensions
    {
      extensionItems := [];
      for i := 0 to |extensions|
        invariant extensionItems == extensions[..i]
      {
        extensionItems := extensionItems + [extensions[i]];
      }
    }

    /** The Folders getter: a new list with the backing list's contents. */
    method Folders() returns (copy: array<string>)
      ensures fresh(copy) && copy[..] == folders
    {
      var fs := folders;
      copy := new string[|fs|](i requires 0 <= i < |fs| => fs[i]);
    }

    /** The Extensions getter: a new list with the backing list's contents. */
    method Extensions() returns (copy: array<string>)
      ensures fresh(copy) && copy[..] == extensions
    {
      var es := extensions;
      copy := new string[|es|](i requires 0 <= i < |es| => es[i]);
    }

    /** OnAddFolder, after the dialog: `selected` is None when the dialog was cancelled. A chosen
        path is appended to both lists unless a folder equal to it ignoring case is listed. */
    method OnAddFolder(selected: Option<string>)
      requires Valid()
      modifies this`folders, this`folderItems
      ensures Valid()
      ensures selected.None? ==> folders == old(folders)
      ensures selected.Some? && ContainsIgnoreCase(old(folders), selected.value) ==>
                folders == old(folders)
      ensures selected.Some? && !ContainsIgnoreCase(old(folders), selected.value) ==>
                folders == old(folders) + [selected.value]
      ensures selected.Some? ==> ContainsIgnoreCase(folders, selected.value)
      ensures NoDupIgnoreCase(old(folders)) ==> NoDupIgnoreCase(folders)
    {
      if selected.Some? {
        var path := selected.value;
        if !ContainsIgnoreCase(folders, path) {
          folders := folders + [path];
          folderItems := folderItems + [path];
          assert folders[|folders| - 1] == path;
        }
      }
    }

    /** OnRemoveFolder: with a selected index, removes exactly that entry from both lists and keeps
        the others in order; with no selection (a negative index) changes nothing. */
    method OnRemoveFolder(selectedIndex: int)
      requires Valid()
      requires selectedIndex < |folderItems|
      modifies this`folders, this`folderItems
      ensures Valid()
      ensures selectedIndex < 0 ==> folders == old(folders)
      ensures selectedIndex >= 0 ==>
                folders == old(folders)[..selectedIndex] + old(folders)[selectedIndex + 1..]
      ensures NoDupIgnoreCase(old(folders)) ==> NoDupIgnoreCase(folders)
    {
      if selectedIndex >= 0 {
        folders := folders[..selectedIndex] + folders[selectedIndex + 1..];
        folderItems := folderItems[..selectedIndex] + folderItems[selectedIndex + 1..];
        ghost var before := old(folders);
        assert forall k :: 0 <= k < |folders| ==>
                 folders[k] == before[if k < selectedIndex then k else k + 1];
      }
    }

    /** OnAddExtension: blank input changes nothing, not even the input box. Otherwise the
        normalised extension is appended to both lists unless an entry equal to it ignoring case is
        listed, and the input box is cleared. */
    method OnAddExtension()
      requires Valid()
      modifies this`extensions, this`extensionItems, this`extensionInput
      ensures Valid()
      ensures NormalizeExtension(old(extensionInput)).None? ==>
                extensions == old(extensions) && extensionInput == old(extensionInput)
      ensures NormalizeExtension(old(extensionInput)).Some? ==>
                var ext := NormalizeExtension(old(extensionInput)).value;
                extensionInput == ""
                && ContainsIgnoreCase(extensions, ext)
                && extensions == if ContainsIgnoreCase(old(extensions), ext) then old(extensions)
                                 else old(extensions) + [ext]
      ensures NoDupIgnoreCase(old(extensions)) ==> NoDupIgnoreCase(extensions)
      ensures (forall k :: 0 <= k < |old(extensions)| ==> IsCanonicalExtension(old(extensions)[k])) ==>
                forall k :: 0 <= k < |extensions| ==> IsCanonicalExtension(extensions[k])
    {
      var ext := ToLowerInvariant(Trim(extensionInput));
      if ext == "" {
        return;
      }
      if ext[0] != '.' {
        ext := "." + ext;
      }
      if !ContainsIgnoreCase(extensions, ext) {
        extensions := extensions + [ext];
        extensionItems := extensionItems + [ext];
        assert extensions[|extensions| - 1] == ext;
      }
      extensionInput := "";
    }

    /** OnRemoveExtension: with a selected index, removes exactly that entry from both lists and
        keeps the others in order; with no selection (a negative index) changes nothing. */
    method OnRemoveExtension(selectedIndex: int)
      requires Valid()
      requires selectedIndex < |extensionItems|
      modifies this`extensions, this`extensionItems
      ensures Valid()
      ensures selectedIndex < 0 ==> extensions == old(extensions)
      ensures selectedIndex >= 0 ==>
                extensions == old(extensions)[..selectedIndex] + old(extensions)[selectedIndex + 1..]
      ensures NoDupIgnoreCase(old(extensions)) ==> NoDupIgnoreCase(extensions)
    {
      if selectedIndex >= 0 {
        extensions := extensions[..selectedIndex] + extensions[selectedIndex + 1..];
        extensionItems := extensionItems[..selectedIndex] + extensionItems[selectedIndex + 1..];
        ghost var before := old(extensions);
        assert forall k :: 0 <= k < |extensions| ==>
                 extensions[k] == before[if k < selectedIndex then k else k + 1];
      }
    }
  }
}
