/** FXSlideShow's three image slots: the current image, and the images loaded ahead for the next
    and the previous file. */
module SlideShow {
  import opened Wire
  import opened FileCursor

  const CURRENT := 0
  const NEXT := 1
  const PREV := 2

  function Url(path: string): string {
    "file:" + path
  }

  // ---------- The slots as values ----------

  datatype Slots = Slots(prev: Option<string>, current: string, next: Option<string>)

  function UrlAt(c: Cursor, i: int): Option<string> {
    if 0 <= i < |c.files| then Some(Url(c.files[i])) else None
  }

  /** What one move makes of the slots; c is the cursor before the move. */
  function Shifted(c: Cursor, s: Slots, forward: bool, save: bool): Slots
    requires IsCursor(c)
  {
    if Target(c, forward) < 0 then s
    else
      var to := Moved(c, forward);
      var passed := if save then Some(s.current) else None;
      var ahead := UrlAt(to, Target(to, forward));
      var taken := if forward then s.next else s.prev;
      var current := if taken.None? then Url(to.files[to.at]) else taken.value;
      if forward then Slots(passed, current, ahead) else Slots(ahead, current, passed)
  }

  function Start(c: Cursor): Slots
    requires IsCursor(c)
  {
    Slots(None, Url(c.files[c.at]), UrlAt(c, NextOf(c)))
  }

  function ShiftedAll(c: Cursor, moves: seq<bool>, save: bool): Slots
    requires IsCursor(c)
  {
    if |moves| == 0 then Start(c)
    else
      var front := moves[..|moves| - 1];
      Shifted(MovedAll(c, front), ShiftedAll(c, front, save), moves[|moves| - 1], save)
  }

  /** Every slot that is filled holds the image of the file it is for. */
  predicate Agree(c: Cursor, s: Slots)
    requires IsCursor(c)
  {
    && s.current == Url(c.files[c.at])
    && (s.next.Some? ==> s.next == UrlAt(c, NextOf(c)))
    && (s.prev.Some? ==> s.prev == UrlAt(c, PrevOf(c)))
  }

  /** Every slot is filled for which there is a file. */
  predicate Full(c: Cursor, s: Slots)
    requires IsCursor(c)
  {
    s == Slots(UrlAt(c, PrevOf(c)), Url(c.files[c.at]), UrlAt(c, NextOf(c)))
  }

  lemma ShiftAgrees(c: Cursor, s: Slots, forward: bool, save: bool)
    requires IsCursor(c) && Agree(c, s)
    ensures Agree(Moved(c, forward), Shifted(c, s, forward, save))
    ensures Target(c, forward) < 0 ==> Moved(c, forward) == c && Shifted(c, s, forward, save) == s
    ensures save && Target(c, forward) >= 0 ==> Full(Moved(c, forward), Shifted(c, s, forward, save))
  {
    hide Url;
    if Target(c, forward) >= 0 { BackAgain(c, forward); }
  }

  /** Whatever was left by a move is next to where the move went. */
  lemma BackAgain(c: Cursor, forward: bool)
    requires IsCursor(c) && Target(c, forward) >= 0
    ensures Target(Moved(c, forward), !forward) == c.at
  {
  }

  ghost predicate SomeMove(c: Cursor, moves: seq<bool>)
    requires IsCursor(c)
  {
    exists i :: 0 <= i < |moves| && Target(MovedAll(c, moves[..i]), moves[i]) >= 0
  }

  /** After any moves the slots agree with the cursor; if previous images are kept, they are full
      from the first real move on. */
  lemma {:induction false} SlotsAgree(c: Cursor, moves: seq<bool>, save: bool)
    requires IsCursor(c)
    ensures Agree(MovedAll(c, moves), ShiftedAll(c, moves, save))
    ensures save && SomeMove(c, moves) ==> Full(MovedAll(c, moves), ShiftedAll(c, moves, save))
    decreases |moves|
  {
    hide Agree, Full, Moved, Shifted, Target;
    if |moves| == 0 {
      StartAgrees(c);
    } else {
      var n := |moves| - 1;
      var front, last := moves[..n], moves[n];
      SlotsAgree(c, front, save);
      var at, slots := MovedAll(c, front), ShiftedAll(c, front, save);
      ShiftAgrees(at, slots, last, save);
      if SomeMove(c, moves) && Target(at, last) < 0 {
        var i :| 0 <= i < |moves| && Target(MovedAll(c, moves[..i]), moves[i]) >= 0;
        assert i < n && front[..i] == moves[..i] && front[i] == moves[i];
      }
    }
  }

  lemma StartAgrees(c: Cursor)
    requires IsCursor(c)
    ensures Agree(c, Start(c))
  {
  }

  // ---------- Loading the images ----------

  class ImageLoadingTask {
    const imagePath: string
    var running: bool
    var done: bool
    var cancelled: bool

    constructor (imagePath: string)
      ensures this.imagePath == imagePath && !running && !done && !cancelled
    {
      this.imagePath := imagePath;
      running, done, cancelled := false, false, false;
    }

    method Cancel()
      modifies this
      ensures cancelled && done && !running
    {
      cancelled, done, running := true, true, false;
    }
  }

  class Show {
    const image: array<ImageLoadingTask?>
    const imageFiles: Files
    var savePrevious: bool
    var view: ImageLoadingTask?         // whose image is on the screen
    var busy: bool

    constructor (imageFiles: Files, savePrevious: bool)
      requires imageFiles.Valid()
      ensures Valid() && fresh(image) && this.imageFiles == imageFiles && this.savePrevious == savePrevious
      ensures image[CURRENT] != null && fresh(image[CURRENT]) && (image[NEXT] != null ==> fresh(image[NEXT]))
      ensures Contents() == Start(imageFiles.At())
    {
      hide Agree;
      this.imageFiles, this.savePrevious := imageFiles, savePrevious;
      image := new ImageLoadingTask?[3](i => null);
      view, busy := null, true;
      new;
      var path := imageFiles.CurrentFilePath();
      image[CURRENT] := new ImageLoadingTask("file:" + path);
      var nf := imageFiles.NextFilePath();
      if nf.Some? {
        image[NEXT] := new ImageLoadingTask("file:" + nf.value);
      }
      StartAgrees(imageFiles.At());
    }

    /** The slots hold different tasks, none of them cancelled; what is loaded is on the screen, and
        otherwise the busy indicator is. */
    ghost predicate Valid()
      reads this, image, imageFiles, image[..]
    {
      && image.Length == 3
      && imageFiles.Valid()
      && image[CURRENT] != null && Distinct() && NoneCancelled()
      && (view == image[CURRENT] || busy)
      && Agree(imageFiles.At(), Contents())
    }

    ghost function Contents(): Slots
      reads image
      requires image.Length == 3 && image[CURRENT] != null
    {
      Slots(UrlOf(image[PREV]), image[CURRENT].imagePath, UrlOf(image[NEXT]))
    }

    ghost function UrlOf(t: ImageLoadingTask?): Option<string> {
      if t == null then None else Some(t.imagePath)
    }

    method NextImage(forward: bool)
      requires Valid()
      modifies this, image, imageFiles, image[CURRENT], image[NEXT], image[PREV]
      ensures Valid()
      ensures imageFiles.At() == Moved(old(imageFiles.At()), forward)
      ensures Contents() == Shifted(old(imageFiles.At()), old(Contents()), forward, savePrevious)
      ensures savePrevious == old(savePrevious)
      ensures old(Target(imageFiles.At(), forward)) < 0 ==> image[..] == old(image[..])
      ensures old(Target(imageFiles.At(), forward)) >= 0 && savePrevious ==>
                image[if forward then PREV else NEXT] == old(image[CURRENT])
      ensures old(Target(imageFiles.At(), forward)) >= 0 && old(image[if forward then NEXT else PREV]) != null ==>
                image[CURRENT] == old(image[if forward then NEXT else PREV])
    {
      hide FileCursor.PrevOf, FileCursor.NextOf, Url, FileCursor.Moved, Agree;
      ShiftAgrees(imageFiles.At(), Contents(), forward, savePrevious);
      var moved, nextPath := Move(forward);
      if !moved {
        return;
      }
      var nextImage, prevImage := if forward then NEXT else PREV, if forward then PREV else NEXT;
      Shift(nextImage, prevImage);
      var path := imageFiles.CurrentFilePath();
      Load(path, nextImage, nextPath);
    }

    /** Moves the cursor and looks up which image to load ahead. */
    method Move(forward: bool) returns (moved: bool, nextPath: Option<string>)
      requires imageFiles.Valid()
      modifies imageFiles
      ensures imageFiles.Valid() && imageFiles.At() == Moved(old(imageFiles.At()), forward)
      ensures moved == (Target(old(imageFiles.At()), forward) >= 0)
      ensures moved ==> nextPath == imageFiles.Url(Target(imageFiles.At(), forward))
    {
      nextPath := None;
      if forward {
        moved := imageFiles.Next();
        if moved {
          nextPath := imageFiles.NextFilePath();
        }
      } else {
        moved := imageFiles.Previous();
        if moved {
          nextPath := imageFiles.PrevFilePath();
        }
      }
    }

    ghost predicate Distinct()
      reads image
    {
      && image.Length == 3
      && (image[CURRENT] != null ==> image[CURRENT] != image[NEXT] && image[CURRENT] != image[PREV])
      && (image[NEXT] != null ==> image[NEXT] != image[PREV])
    }

    ghost predicate NoneCancelled()
      reads image, image[..]
      requires image.Length == 3
    {
      forall i :: 0 <= i < 3 && image[i] != null ==> !image[i].cancelled
    }

    /** Everything moves up one slot. */
    method Shift(nextImage: int, prevImage: int)
      requires Distinct() && NoneCancelled() && image[CURRENT] != null
      requires (nextImage, prevImage) == (NEXT, PREV) || (nextImage, prevImage) == (PREV, NEXT)
      modifies image, image[CURRENT], image[prevImage]
      ensures Distinct() && NoneCancelled()
      ensures image[CURRENT] == old(image[nextImage]) && image[nextImage] == null
      ensures image[prevImage] == if savePrevious then old(image[CURRENT]) else null
    {
      Discard(prevImage);
      if savePrevious {
        image[prevImage] := image[CURRENT];
      } else if image[CURRENT].running {
        image[CURRENT].Cancel();
      }
      image[CURRENT] := image[nextImage];
      image[nextImage] := null;
    }

    /** Fills the current slot if nothing was loaded ahead for it, and the slot to load ahead. */
    method Load(path: string, nextImage: int, nextPath: Option<string>)
      requires Distinct() && NoneCancelled() && (nextImage == NEXT || nextImage == PREV) && image[nextImage] == null
      modifies this`view, this`busy, image
      ensures Distinct() && NoneCancelled() && image[CURRENT] != null && (view == image[CURRENT] || busy)
      ensures old(image[CURRENT]) != null ==> image[CURRENT] == old(image[CURRENT])
      ensures old(image[CURRENT]) == null ==> image[CURRENT].imagePath == Url(path)
      ensures UrlOf(image[nextImage]) == if nextPath.None? then None else Some(Url(nextPath.value))
      ensures image[3 - nextImage] == old(image[3 - nextImage])
    {
      if image[CURRENT] == null {
        image[CURRENT] := new ImageLoadingTask("file:" + path);
        busy := true;
      } else if image[CURRENT].done {
        SetCurrentImage(image[CURRENT]);
      } else {
        busy := true;
      }
      if nextPath.Some? {
        image[nextImage] := new ImageLoadingTask("file:" + nextPath.value);
      }
    }

    /** Cancels and forgets what a slot other than the current one holds. */
    method Discard(i: int)
      requires image.Length == 3 && (i == NEXT || i == PREV)
      modifies image, image[i]
      ensures image[..] == old(image[..])[i := null]
    {
      if image[i] != null {
        if image[i].running {
          image[i].Cancel();
        }
        image[i] := null;
      }
    }

    /** Shows an image, whose loading must be over and not cancelled. */
    method SetCurrentImage(i: ImageLoadingTask)
      requires i.done && !i.cancelled
      modifies this`view, this`busy
      ensures view == i && !busy
    {
      view := i;
      busy := false;
    }

    /** The loader's thread starts and ends a task. */
    method TaskStarts(t: ImageLoadingTask)
      requires Valid()
      modifies t`running
      ensures Valid() && Contents() == old(Contents())
    {
      if !t.done {
        t.running := true;
      }
    }

    method TaskEnds(t: ImageLoadingTask)
      requires Valid()
      modifies t`running, t`done
      ensures Valid() && Contents() == old(Contents())
    {
      t.running, t.done := false, true;
    }

    /** A task reports that its image is loaded. */
    method Succeeded(t: ImageLoadingTask)
      requires Valid() && t.done
      modifies this`view, this`busy
      ensures Valid() && Contents() == old(Contents())
      ensures t == image[CURRENT] ==> view == t && !busy
    {
      if image[CURRENT] == t {
        busy := false;
        SetCurrentImage(t);
      }
    }
  }
}
