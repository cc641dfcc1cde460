/** The names of the template files the content directory may hold. */
module StructureTemplate {
  import opened Wrappers
  import opened Paths

  const ArticleTemplate: string := "_article.html"
  const IndexTemplate: string := "_index.html"
  const IndexListTemplate: string := "_index-list.html"

  /** `TEMPLATE_FILES`, in the order article, index, index list. */
  const TemplateFiles: seq<string> := [ArticleTemplate, IndexTemplate, IndexListTemplate]

  /** `template_file_paths`: each template name as a one-component relative path. */
  function TemplateFilePaths(): (r: seq<Path>)
    ensures |r| == |TemplateFiles| == 3
    ensures forall i :: 0 <= i < |r| ==> r[i] == Relative([TemplateFiles[i]]) && FileName(r[i]) == Some(TemplateFiles[i])
  {
    [Relative([ArticleTemplate]), Relative([IndexTemplate]), Relative([IndexListTemplate])]
  }

  /** `is_template_file`: some template name is the path's file name. */
  function IsTemplateFile(p: Path): (b: bool)
    ensures b <==> exists i :: 0 <= i < |TemplateFiles| && FileName(p) == Some(TemplateFiles[i])
  {
    match FileName(p)
    case None => false
    case Some(name) => name in TemplateFiles
  }

  /** Only the file name counts: the directories above it and whether the path is absolute do not. */
  lemma TemplateFileByName(dirs: seq<string>, absolute: bool, name: string)
    ensures IsTemplateFile(Path(absolute, dirs + [name])) == IsTemplateFile(Relative([name]))
    ensures IsTemplateFile(Relative([name])) <==> name in TemplateFiles
  {
    var p := Path(absolute, dirs + [name]);
    assert p.components[|p.components| - 1] == name;
    if name == ".." {
      assert |ArticleTemplate| != 2 && |IndexTemplate| != 2 && |IndexListTemplate| != 2;
    } else {
      assert FileName(p) == Some(name);
    }
  }

  /** A path without a file name (the root, or the empty path) is never a template. */
  lemma NoFileNameNoTemplate(p: Path)
    requires |p.components| == 0
    ensures !IsTemplateFile(p)
  {
  }

  /** Every path `template_file_paths` yields is recognised as a template file, and the three differ. */
  lemma TemplatePathsAreTemplates()
    ensures forall i :: 0 <= i < |TemplateFilePaths()| ==> IsTemplateFile(TemplateFilePaths()[i])
    ensures forall i, j :: 0 <= i < j < |TemplateFilePaths()| ==> TemplateFilePaths()[i] != TemplateFilePaths()[j]
  {
    var r := TemplateFilePaths();
    forall i | 0 <= i < |r| ensures IsTemplateFile(r[i]) {
      assert FileName(r[i]) == Some(TemplateFiles[i]);
    }
    assert ArticleTemplate != IndexTemplate by { assert |ArticleTemplate| != |IndexTemplate|; }
    assert IndexTemplate != IndexListTemplate by { assert |IndexTemplate| != |IndexListTemplate|; }
    assert ArticleTemplate != IndexListTemplate by { assert ArticleTemplate[1] != IndexListTemplate[1]; }
  }
}
