/** The `file_types` table of main.py: six categories, each an ordered tuple of
    extensions, iterated in declaration order. */
module Categories {

  datatype Category = Category(name: string, exts: seq<string>)

  const Documents: seq<string> := [".docx", ".pdf", ".txt", ".pptx", ".xlsx"]
  const Images: seq<string> := [".jpg", ".jpeg", ".png", ".gif", ".bmp", ".svg"]
  const Audio: seq<string> := [".mp3", ".wav", ".aac", ".flac", ".ogg"]
  const Videos: seq<string> := [".mp4", ".mov", ".avi", ".wmv", ".mkv"]
  const Archives: seq<string> := [".zip", ".rar", ".7z"]
  const Programs: seq<string> := [".html", ".css", ".js", ".py", ".java", ".cpp", ".ts"]

  const FileTypes: seq<Category> := [
    Category("documents", Documents),
    Category("images", Images),
    Category("audio", Audio),
    Category("videos", Videos),
    Category("archives", Archives),
    Category("programs", Programs)
  ]

  /** No extension is listed under two categories. */
  ghost predicate Disjoint(cats: seq<Category>) {
    forall i, j, x :: 0 <= i < j < |cats| && x in cats[i].exts ==> x !in cats[j].exts
  }

  /** Every listed extension is a '.' followed by at least one character that is
      neither '.' nor '/'. */
  predicate WellFormedExt(x: string) {
    |x| >= 2 && x[0] == '.' && '.' !in x[1..] && '/' !in x
  }

  /** No extension of `xs` is listed in `ys`. */
  ghost predicate Apart(xs: seq<string>, ys: seq<string>) {
    forall x :: x in xs ==> x !in ys
  }

  /** Every extension of `xs` is well formed. */
  ghost predicate AllWellFormed(xs: seq<string>) {
    forall x :: x in xs ==> WellFormedExt(x)
  }

  lemma DocumentsWellFormed() ensures AllWellFormed(Documents) {}
  lemma ImagesWellFormed() ensures AllWellFormed(Images) {}
  lemma AudioWellFormed() ensures AllWellFormed(Audio) {}
  lemma VideosWellFormed() ensures AllWellFormed(Videos) {}
  lemma ArchivesWellFormed() ensures AllWellFormed(Archives) {}
  lemma ProgramsWellFormed() ensures AllWellFormed(Programs) {}

  lemma CategoryWellFormed(k: nat)
    requires k < |FileTypes|
    ensures forall x :: x in FileTypes[k].exts ==> WellFormedExt(x)
  {
    if k == 0 { DocumentsWellFormed(); }
    else if k == 1 { ImagesWellFormed(); }
    else if k == 2 { AudioWellFormed(); }
    else if k == 3 { VideosWellFormed(); }
    else if k == 4 { ArchivesWellFormed(); }
    else { ProgramsWellFormed(); }
  }

  lemma FileTypesWellFormed()
    ensures forall c, x :: c in FileTypes && x in c.exts ==> WellFormedExt(x)
  {
    forall c, x | c in FileTypes && x in c.exts ensures WellFormedExt(x) {
      var k :| 0 <= k < |FileTypes| && FileTypes[k] == c;
      CategoryWellFormed(k);
    }
  }

  /** `x` holds an upper-case ASCII letter. */
  predicate HasUpperCase(x: string) {
    exists i :: 0 <= i < |x| && 'A' <= x[i] <= 'Z'
  }

  /** No extension of `xs` holds an upper-case letter. */
  ghost predicate AllLowerCase(xs: seq<string>) {
    forall x :: x in xs ==> !HasUpperCase(x)
  }

  lemma DocumentsLowerCase() ensures AllLowerCase(Documents) {}
  lemma ImagesLowerCase() ensures AllLowerCase(Images) {}
  lemma AudioLowerCase() ensures AllLowerCase(Audio) {}
  lemma VideosLowerCase() ensures AllLowerCase(Videos) {}
  lemma ArchivesLowerCase() ensures AllLowerCase(Archives) {}
  lemma ProgramsLowerCase() ensures AllLowerCase(Programs) {}

  /** The table spells every extension in lower case, so a string holding an
      upper-case letter is claimed by no category. */
  lemma CategoryLowerCase(k: nat, x: string)
    requires k < |FileTypes| && HasUpperCase(x)
    ensures x !in FileTypes[k].exts
  {
    if k == 0 { DocumentsLowerCase(); }
    else if k == 1 { ImagesLowerCase(); }
    else if k == 2 { AudioLowerCase(); }
    else if k == 3 { VideosLowerCase(); }
    else if k == 4 { ArchivesLowerCase(); }
    else { ProgramsLowerCase(); }
  }

  // Each category's tuple shares nothing with the tuples declared after it.
  lemma DocumentsApart() ensures Apart(Documents, Images + Audio + Videos + Archives + Programs) {}
  lemma ImagesApart() ensures Apart(Images, Audio + Videos + Archives + Programs) {}
  lemma AudioApart() ensures Apart(Audio, Videos + Archives + Programs) {}
  lemma VideosApart() ensures Apart(Videos, Archives + Programs) {}
  lemma ArchivesApart() ensures Apart(Archives, Programs) {}

  lemma CategoriesApart(i: nat, j: nat)
    requires i < j < |FileTypes|
    ensures Apart(FileTypes[i].exts, FileTypes[j].exts)
  {
    if i == 0 { DocumentsApart(); }
    else if i == 1 { ImagesApart(); }
    else if i == 2 { AudioApart(); }
    else if i == 3 { VideosApart(); }
    else { ArchivesApart(); }
  }

  /** The six default tuples are pairwise disjoint. */
  lemma FileTypesDisjoint()
    ensures Disjoint(FileTypes)
  {
    forall i, j | 0 <= i < j < |FileTypes| ensures Apart(FileTypes[i].exts, FileTypes[j].exts) {
      CategoriesApart(i, j);
    }
  }

  /** The category names are distinct, so a routing table keyed by name picks
      at most one folder per category. */
  lemma FileTypesNamesDistinct()
    ensures forall i, j :: 0 <= i < j < |FileTypes| ==> FileTypes[i].name != FileTypes[j].name
  {
  }
}
