/** The images of one inventory item: positions, unique per item, and the primary flag, under
    confirm, reorder, patch and delete. */
module ItemImages {
  import opened Wrappers
  import opened Sequences

  type ImageId = nat

  datatype Image = Image(position: nat, primary: bool)

  type Images = map<ImageId, Image>

  /** The largest value of the position column, a small integer. */
  const MAX_POSITION := 32767
  const REORDER_OFFSET := 1000

  /** The largest values of the key and size columns. */
  const MAX_KEY := 255
  const MAX_SIZE := 2147483647

  /** What a confirm says of the uploaded file. The serializer wants a key and positive sizes, and sets no
      upper bounds; the columns do. */
  datatype Upload = Upload(key: string, width: int, height: int) {
    predicate Accepted() {
      key != "" && width >= 1 && height >= 1
    }

    predicate RowFits() {
      |key| <= MAX_KEY && width <= MAX_SIZE && height <= MAX_SIZE
    }
  }

  /** A JSON value of a patch; null is the same as absent. */
  datatype Json = Null | Bool(b: bool) | Int(i: int) | Other

  datatype Action =
    | Confirm(id: ImageId, upload: Upload, primary: bool)
    | Reorder(ids: seq<ImageId>)
    | Patch(id: ImageId, isPrimary: Json, position: Json)
    | Delete(id: ImageId)

  datatype Outcome = Done | Invalid | NotFound | DatabaseError

  ghost predicate Apart(images: Images, x: ImageId, y: ImageId)
    requires x in images && y in images
  {
    images[x].position == images[y].position ==> x == y
  }

  /** The constraint `ds_image_unique_position`, and the column's range. */
  ghost predicate Valid(images: Images) {
    && (forall x, y {:trigger Apart(images, x, y)} :: x in images && y in images ==> Apart(images, x, y))
    && (forall x :: x in images ==> images[x].position <= MAX_POSITION)
  }

  ghost predicate AtMostOnePrimary(images: Images) {
    forall x, y :: x in images && y in images && images[x].primary && images[y].primary ==> x == y
  }

  ghost predicate HasPrimary(images: Images) {
    images == map[] || exists x :: x in images && images[x].primary
  }

  // ---- What each action does ----

  function Demoted(images: Images): Images {
    map x | x in images :: images[x].(primary := false)
  }

  function DemotedExcept(images: Images, id: ImageId): Images {
    map x | x in images :: if x == id then images[x] else images[x].(primary := false)
  }

  ghost predicate IsTop(images: Images, x: ImageId) {
    x in images && forall y :: y in images ==> images[y].position <= images[x].position
  }

  ghost predicate IsFirst(images: Images, x: ImageId) {
    x in images && forall y :: y in images ==> images[x].position <= images[y].position
  }

  lemma TopExists(images: Images)
    requires images != map[]
    ensures exists x :: IsTop(images, x)
  {
    var key: ImageId -> int := x => if x in images then 0 - images[x].position else 0;
    LeastExists(images.Keys, key);
    var x :| x in images.Keys && forall y :: y in images.Keys ==> key(x) <= key(y);
    forall y | y in images ensures images[y].position <= images[x].position {
      assert key(x) <= key(y);
    }
    assert IsTop(images, x);
  }

  lemma FirstExists(images: Images)
    requires images != map[]
    ensures exists x :: IsFirst(images, x)
  {
    var key: ImageId -> int := x => if x in images then images[x].position else 0;
    LeastExists(images.Keys, key);
    var x :| x in images.Keys && forall y :: y in images.Keys ==> key(x) <= key(y);
    forall y | y in images ensures images[x].position <= images[y].position {
      assert key(x) <= key(y);
    }
    assert IsFirst(images, x);
  }

  /** The image at the lowest position. */
  ghost function First(images: Images): (x: ImageId)
    requires images != map[]
    ensures IsFirst(images, x)
  {
    FirstExists(images);
    var x :| IsFirst(images, x);
    x
  }

  /** One past the highest position in use, or 0. */
  ghost function NextPosition(images: Images): nat {
    if images == map[] then 0
    else
      TopExists(images);
      var x :| IsTop(images, x);
      images[x].position + 1
  }

  /** The insert is refused for a column that cannot hold its value. */
  ghost predicate Refused(images: Images, upload: Upload) {
    !upload.RowFits() || NextPosition(images) > MAX_POSITION
  }

  /** The demotion is not undone when the insert is refused: the view runs outside a transaction. */
  ghost function AfterConfirm(images: Images, id: ImageId, upload: Upload, requested: bool): (Images, Outcome) {
    var primary := requested || images == map[];
    var demoted := if primary then Demoted(images) else images;
    if !upload.Accepted() then (images, Invalid)
    else if Refused(images, upload) then (demoted, DatabaseError)
    else (demoted[id := Image(NextPosition(images), primary)], Done)
  }

  /** The first k ids of the list at base, base + 1, ...; every other image untouched. */
  ghost function Placed(images: Images, ids: seq<ImageId>, k: nat, base: nat): Images
    requires k <= |ids| && forall x :: x in ids ==> x in images
  {
    if k == 0 then images
    else Placed(images, ids, k - 1, base)[ids[k - 1] := images[ids[k - 1]].(position := base + k - 1)]
  }

  ghost predicate ListsImages(images: Images, ids: seq<ImageId>) {
    Distinct(ids) && forall x :: x in ids ==> x in images
  }

  /** No write of the two passes meets a position that another image holds at that moment, or one
      out of range: images left out of the list stay clear of both target ranges, and no listed image
      sits where an image earlier in the list is parked in the first pass. */
  ghost predicate NoClash(images: Images, ids: seq<ImageId>)
    requires ListsImages(images, ids)
  {
    && REORDER_OFFSET + |ids| - 1 <= MAX_POSITION
    && (forall x :: x in images && x !in ids ==>
          images[x].position >= |ids| && !(REORDER_OFFSET <= images[x].position < REORDER_OFFSET + |ids|))
    && (forall j :: 0 <= j < |ids| ==> !(REORDER_OFFSET <= images[ids[j]].position < REORDER_OFFSET + j))
  }

  ghost function AfterReorder(images: Images, ids: seq<ImageId>): (Images, Outcome) {
    if ids == [] then (images, Invalid)
    else if !ListsImages(images, ids) then (images, NotFound)
    else if !NoClash(images, ids) then (images, DatabaseError)
    else (Placed(images, ids, |ids|, 0), Done)
  }

  /** A boolean position counts as 0 or 1. */
  function PositionOf(j: Json): Option<int> {
    match j
    case Int(i) => Some(i)
    case Bool(b) => Some(if b then 1 else 0)
    case _ => None
  }

  predicate Taken(images: Images, id: ImageId, position: int) {
    exists y :: y in images && y != id && images[y].position == position
  }

  ghost function AfterPatch(images: Images, id: ImageId, isPrimary: Json, position: Json): (Images, Outcome) {
    if id !in images then (images, NotFound)
    else if isPrimary != Null && !isPrimary.Bool? then (images, Invalid)
    else if position != Null && (PositionOf(position).None? || PositionOf(position).value < 0) then (images, Invalid)
    else
      var at := if position == Null then images[id].position else PositionOf(position).value;
      if at > MAX_POSITION || Taken(images, id, at) then (images, DatabaseError)
      else
        var others := if isPrimary == Bool(true) then DemotedExcept(images, id) else images;
        var flag := if isPrimary == Null then images[id].primary else isPrimary.b;
        (others[id := Image(at, flag)], Done)
  }

  /** Whether the file itself could be deleted makes no difference. */
  ghost function AfterDelete(images: Images, id: ImageId): (Images, Outcome) {
    if id !in images then (images, NotFound)
    else
      var rest := images - {id};
      if images[id].primary && rest != map[] then
        (rest[First(rest) := rest[First(rest)].(primary := true)], Done)
      else (rest, Done)
  }

  ghost function Step(images: Images, a: Action): (Images, Outcome) {
    match a
    case Confirm(id, upload, primary) => AfterConfirm(images, id, upload, primary)
    case Reorder(ids) => AfterReorder(images, ids)
    case Patch(id, isPrimary, position) => AfterPatch(images, id, isPrimary, position)
    case Delete(id) => AfterDelete(images, id)
  }

  // ---- What each action leaves behind ----

  lemma NextIsOnePast(images: Images)
    ensures images == map[] ==> NextPosition(images) == 0
    ensures images != map[] ==>
              && (exists x :: x in images && NextPosition(images) == images[x].position + 1)
              && forall x :: x in images ==> images[x].position < NextPosition(images)
  {
    if images != map[] {
      TopExists(images);
    }
  }

  /** A confirmed image goes one past the highest position, the first one to 0, and is primary if it is asked
      to be or is the first; a refused insert adds nothing. Nothing moves, and the other images lose the
      flag exactly when the new one was to have it. */
  lemma ConfirmLeaves(images: Images, id: ImageId, upload: Upload, requested: bool)
    requires id !in images
    ensures var (r, outcome) := AfterConfirm(images, id, upload, requested);
            && (outcome == Invalid <==> upload.key == "" || upload.width < 1 || upload.height < 1)
            && (outcome == Invalid ==> r == images)
            && (outcome == Done || outcome == DatabaseError || outcome == Invalid)
            && r.Keys == images.Keys + (if outcome == Done then {id} else {})
            && (outcome == Done ==>
                  && r[id].primary == (requested || images == map[])
                  && (images == map[] ==> r[id].position == 0)
                  && (images != map[] ==> exists x :: x in images && r[id].position == images[x].position + 1)
                  && forall x :: x in images ==> images[x].position < r[id].position)
            && (outcome != Invalid ==> forall x :: x in images ==>
                  && r[x].position == images[x].position
                  && r[x].primary == (images[x].primary && !requested))
  {
    NextIsOnePast(images);
  }

  /** A refused patch changes nothing. Any other gives the image the position and the flag that are asked for,
      moves no other image, and takes the flag from the others exactly when it gives it. */
  lemma PatchLeaves(images: Images, id: ImageId, isPrimary: Json, position: Json)
    ensures var (r, outcome) := AfterPatch(images, id, isPrimary, position);
            && (outcome == NotFound <==> id !in images)
            && (outcome == Invalid <==>
                  id in images && !((isPrimary == Null || isPrimary.Bool?) &&
                                    (position == Null || position.Bool? || (position.Int? && position.i >= 0))))
            && (outcome != Done ==> r == images)
            && (outcome == Done ==>
                  && id in images && r.Keys == images.Keys
                  && (match position
                      case Int(i) => r[id].position == i
                      case Bool(b) => r[id].position == if b then 1 else 0
                      case _ => r[id].position == images[id].position)
                  && r[id].primary == (if isPrimary.Bool? then isPrimary.b else images[id].primary)
                  && forall x :: x in images && x != id ==>
                       && r[x].position == images[x].position
                       && r[x].primary == (images[x].primary && isPrimary != Bool(true)))
  {
  }

  /** A delete removes that image alone and moves none. If it was primary, the image at the lowest of the
      positions left becomes so; otherwise the flags stay. */
  lemma DeleteLeaves(images: Images, id: ImageId)
    requires Valid(images)
    ensures var (r, outcome) := AfterDelete(images, id);
            && (outcome == if id in images then Done else NotFound)
            && r.Keys == images.Keys - {id}
            && forall x :: x in r ==>
                 && r[x].position == images[x].position
                 && r[x].primary == (images[x].primary
                                     || (id in images && images[id].primary
                                         && forall y :: y in r ==> images[x].position <= images[y].position))
  {
    var rest := images - {id};
    if id in images && images[id].primary && rest != map[] {
      forall x | x in rest
        ensures x == First(rest) <==> forall y :: y in rest ==> images[x].position <= images[y].position
      {
        assert Apart(images, x, First(rest));
      }
    }
  }

  // ---- Positions ----

  lemma NextIsUnused(images: Images)
    ensures forall x :: x in images ==> images[x].position < NextPosition(images)
  {
  }

  lemma ConfirmKeepsValid(images: Images, id: ImageId, upload: Upload, requested: bool)
    requires Valid(images) && id !in images
    ensures Valid(AfterConfirm(images, id, upload, requested).0)
    ensures AfterConfirm(images, id, upload, requested).1 == Done ==>
              var r := AfterConfirm(images, id, upload, requested).0;
              id in r && forall x :: x in images ==> images[x].position < r[id].position
  {
    NextIsUnused(images);
    var r := AfterConfirm(images, id, upload, requested).0;
    forall x, y | x in r && y in r
      ensures Apart(r, x, y)
    {
      assert x != id && y != id ==> Apart(images, x, y);
    }
  }

  lemma DeleteKeepsValid(images: Images, id: ImageId)
    requires Valid(images)
    ensures Valid(AfterDelete(images, id).0)
  {
    var r := AfterDelete(images, id).0;
    forall x, y | x in r && y in r
      ensures Apart(r, x, y)
    {
      assert Apart(images, x, y);
    }
  }

  lemma PatchKeepsValid(images: Images, id: ImageId, isPrimary: Json, position: Json)
    requires Valid(images)
    ensures Valid(AfterPatch(images, id, isPrimary, position).0)
  {
    var r := AfterPatch(images, id, isPrimary, position).0;
    forall x, y | x in r && y in r
      ensures Apart(r, x, y)
    {
      assert Apart(images, x, y);
    }
  }

  lemma {:induction false} PlacedListed(images: Images, ids: seq<ImageId>, k: nat, base: nat, j: nat)
    requires ListsImages(images, ids) && k <= |ids| && j < |ids|
    ensures ids[j] in Placed(images, ids, k, base)
    ensures Placed(images, ids, k, base)[ids[j]] ==
            if j < k then images[ids[j]].(position := base + j) else images[ids[j]]
    decreases k
  {
    if k > 0 {
      PlacedListed(images, ids, k - 1, base, j);
    }
  }

  lemma {:induction false} PlacedOther(images: Images, ids: seq<ImageId>, k: nat, base: nat)
    requires ListsImages(images, ids) && k <= |ids|
    ensures Placed(images, ids, k, base).Keys == images.Keys
    ensures forall x :: x in images && x !in ids ==> Placed(images, ids, k, base)[x] == images[x]
    decreases k
  {
    if k > 0 {
      PlacedOther(images, ids, k - 1, base);
      assert ids[k - 1] in ids;
    }
  }

  /** A completed reorder leaves position = list index, the other images where they were, and all
      primary flags as they were. */
  lemma ReorderPlaces(images: Images, ids: seq<ImageId>)
    requires Valid(images) && AfterReorder(images, ids).1 == Done
    ensures var r := AfterReorder(images, ids).0;
            && r.Keys == images.Keys
            && (forall i :: 0 <= i < |ids| ==> ids[i] in r && r[ids[i]].position == i)
            && (forall x :: x in images && x !in ids ==> r[x] == images[x])
            && (forall x :: x in images ==> r[x].primary == images[x].primary)
  {
    var r := AfterReorder(images, ids).0;
    PlacedOther(images, ids, |ids|, 0);
    forall i | 0 <= i < |ids|
      ensures r[ids[i]] == images[ids[i]].(position := i)
    {
      PlacedListed(images, ids, |ids|, 0, i);
    }
    forall x | x in images
      ensures r[x].primary == images[x].primary
    {
      if x in ids {
        var i :| 0 <= i < |ids| && ids[i] == x;
        assert r[ids[i]] == images[ids[i]].(position := i);
      }
    }
  }

  lemma ReorderKeepsValid(images: Images, ids: seq<ImageId>)
    requires Valid(images)
    ensures Valid(AfterReorder(images, ids).0)
  {
    if AfterReorder(images, ids).1 == Done {
      ReorderPlaces(images, ids);
      var r := AfterReorder(images, ids).0;
      forall x | x in r
        ensures x in ids ==> r[x].position < |ids| && ids[r[x].position] == x
        ensures x !in ids ==> r[x].position >= |ids|
        ensures r[x].position <= MAX_POSITION
      {
        if x in ids {
          var i :| 0 <= i < |ids| && ids[i] == x;
          assert r[ids[i]].position == i;
        }
      }
      forall x, y | x in r && y in r
        ensures Apart(r, x, y)
      {
        assert Apart(images, x, y);
      }
    }
  }

  ghost function Below(n: nat): (s: set<nat>)
    ensures |s| == n && forall p: nat :: p in s <==> p < n
  {
    if n == 0 then {}
    else
      var smaller := Below(n - 1);
      assert n - 1 !in smaller;
      smaller + {n - 1}
  }

  /** Distinct positions below n belong to at most n images. */
  lemma PositionsFit(images: Images, ids: seq<ImageId>, n: nat)
    requires Valid(images) && ListsImages(images, ids)
    requires forall x :: x in images ==> images[x].position < n
    ensures |ids| <= n
  {
    var positions := seq(|ids|, i requires 0 <= i < |ids| => images[ids[i]].position);
    forall i, j | 0 <= i < j < |positions|
      ensures positions[i] != positions[j]
    {
      assert Apart(images, ids[i], ids[j]);
    }
    DistinctCardinality(positions);
    assert Elements(positions) <= Below(n);
    SubsetCardinality(Elements(positions), Below(n));
  }

  /** Reordering all images of an item whose positions are all below 1000 always succeeds. */
  lemma FullReorderSucceeds(images: Images, ids: seq<ImageId>)
    requires Valid(images) && ids != [] && Distinct(ids)
    requires forall x :: x in ids <==> x in images
    requires forall x :: x in images ==> images[x].position < REORDER_OFFSET
    ensures AfterReorder(images, ids).1 == Done
  {
    PositionsFit(images, ids, REORDER_OFFSET);
  }

  // ---- The primary flag ----

  lemma StepKeepsAtMostOne(images: Images, a: Action)
    requires Valid(images) && AtMostOnePrimary(images) && (a.Confirm? ==> a.id !in images)
    ensures AtMostOnePrimary(Step(images, a).0)
  {
    if a.Reorder? && AfterReorder(images, a.ids).1 == Done {
      ReorderPlaces(images, a.ids);
    }
  }

  /** The patched position, if one is given, is a free one the column can hold. */
  ghost predicate PositionFits(images: Images, id: ImageId, position: Json) {
    position == Null ||
    (PositionOf(position).Some?
     && 0 <= PositionOf(position).value <= MAX_POSITION && !Taken(images, id, PositionOf(position).value))
  }

  /** The two ways to lose the primary image: clearing its flag, and confirming a primary image whose
      row the database refuses, for its key, its size, or because the highest position is the largest the
      column holds. */
  ghost predicate LosesPrimary(images: Images, a: Action) {
    match a
    case Confirm(_, upload, requested) => requested && images != map[] && upload.Accepted() && Refused(images, upload)
    case Patch(id, isPrimary, position) =>
      isPrimary == Bool(false) && id in images && images[id].primary && PositionFits(images, id, position)
    case _ => false
  }

  lemma ConfirmPrimary(images: Images, id: ImageId, upload: Upload, requested: bool)
    requires Valid(images) && HasPrimary(images) && id !in images
    ensures HasPrimary(AfterConfirm(images, id, upload, requested).0) <==>
            !LosesPrimary(images, Confirm(id, upload, requested))
  {
    var r := AfterConfirm(images, id, upload, requested);
    if r.1 == Done {
      if requested || images == map[] {
        assert r.0[id].primary;
      } else {
        var x :| x in images && images[x].primary;
        assert r.0[x].primary;
      }
    } else if upload.Accepted() && images != map[] {
      var x :| x in images && (requested || images[x].primary);
      assert x in r.0;
    }
  }

  /** A patch with a boolean flag, or none, goes through exactly when its position fits. */
  lemma PatchSucceedsIff(images: Images, id: ImageId, isPrimary: Json, position: Json)
    requires Valid(images) && id in images && (isPrimary == Null || isPrimary.Bool?)
    ensures AfterPatch(images, id, isPrimary, position).1 == Done <==> PositionFits(images, id, position)
  {
    forall y | y in images && y != id ensures images[y].position != images[id].position {
      assert Apart(images, y, id);
    }
  }

  lemma PatchPrimary(images: Images, id: ImageId, isPrimary: Json, position: Json)
    requires Valid(images) && AtMostOnePrimary(images) && HasPrimary(images)
    ensures HasPrimary(AfterPatch(images, id, isPrimary, position).0) <==>
            !LosesPrimary(images, Patch(id, isPrimary, position))
  {
    var r := AfterPatch(images, id, isPrimary, position);
    if id in images && (isPrimary == Null || isPrimary.Bool?) {
      PatchSucceedsIff(images, id, isPrimary, position);
    }
    if r.1 == Done {
      var x :| x in images && images[x].primary;
      if isPrimary == Bool(true) {
        assert r.0[id].primary;
      } else if x == id {
        assert r.0[id].primary <==> isPrimary == Null;
        assert forall y :: y in r.0 && y != id ==> !r.0[y].primary;
      } else {
        assert r.0[x].primary;
      }
    }
  }

  lemma DeletePrimary(images: Images, id: ImageId)
    requires Valid(images) && HasPrimary(images)
    ensures HasPrimary(AfterDelete(images, id).0)
  {
    var r := AfterDelete(images, id);
    if r.1 == Done && r.0 != map[] {
      if images[id].primary {
        var rest := images - {id};
        assert rest != map[];
        assert r.0[First(rest)].primary;
      } else {
        var x :| x in images && images[x].primary;
        assert r.0[x].primary;
      }
    }
  }

  lemma StepKeepsPrimaryIff(images: Images, a: Action)
    requires Valid(images) && AtMostOnePrimary(images) && HasPrimary(images) && (a.Confirm? ==> a.id !in images)
    ensures HasPrimary(Step(images, a).0) <==> !LosesPrimary(images, a)
  {
    match a
    case Confirm(id, upload, requested) => ConfirmPrimary(images, id, upload, requested);
    case Reorder(ids) =>
      if AfterReorder(images, ids).1 == Done {
        ReorderPlaces(images, ids);
      }
    case Patch(id, isPrimary, position) => PatchPrimary(images, id, isPrimary, position);
    case Delete(id) => DeletePrimary(images, id);
  }

  // ---- Runs ----

  /** The images of an item created empty, after a run of actions. */
  ghost function After(actions: seq<Action>): Images {
    if actions == [] then map[] else Step(After(actions[..|actions| - 1]), actions[|actions| - 1]).0
  }

  /** Every confirmed image gets an id not in use. */
  ghost predicate FreshIds(actions: seq<Action>) {
    actions == [] ||
    var init, last := actions[..|actions| - 1], actions[|actions| - 1];
    FreshIds(init) && (last.Confirm? ==> last.id !in After(init))
  }

  /** No step of the run loses the primary image. */
  ghost predicate NeverLosesPrimary(actions: seq<Action>) {
    actions == [] ||
    var init, last := actions[..|actions| - 1], actions[|actions| - 1];
    NeverLosesPrimary(init) && !LosesPrimary(After(init), last)
  }

  lemma StepKeepsValid(images: Images, a: Action)
    requires Valid(images) && (a.Confirm? ==> a.id !in images)
    ensures Valid(Step(images, a).0)
  {
    match a
    case Confirm(id, upload, primary) => ConfirmKeepsValid(images, id, upload, primary);
    case Reorder(ids) => ReorderKeepsValid(images, ids);
    case Patch(id, isPrimary, position) => PatchKeepsValid(images, id, isPrimary, position);
    case Delete(id) => DeleteKeepsValid(images, id);
  }

  lemma OneStep(before: Images, a: Action, now: Images)
    requires Valid(before) && AtMostOnePrimary(before) && (a.Confirm? ==> a.id !in before)
    requires now == Step(before, a).0
    ensures Valid(now) && AtMostOnePrimary(now)
    ensures HasPrimary(before) && !LosesPrimary(before, a) ==> HasPrimary(now)
  {
    StepKeepsValid(before, a);
    StepKeepsAtMostOne(before, a);
    if HasPrimary(before) {
      StepKeepsPrimaryIff(before, a);
    }
  }

  /** In every run positions stay unique and at most one image is primary; and as long as no step
      loses the primary image, every non-empty item has exactly one. */
  lemma {:induction false} RunInvariants(actions: seq<Action>)
    requires FreshIds(actions)
    ensures Valid(After(actions)) && AtMostOnePrimary(After(actions))
    ensures NeverLosesPrimary(actions) ==> HasPrimary(After(actions))
  {
    if actions != [] {
      var init, last := actions[..|actions| - 1], actions[|actions| - 1];
      RunInvariants(init);
      OneStep(After(init), last, After(actions));
    }
  }

  /** One primary image at the largest position; confirming a new primary one fails and leaves the
      item without any. */
  lemma {:induction false} ConfirmCounterexample(upload: Upload)
    requires upload.Accepted()
    ensures var images: Images := map[1 := Image(MAX_POSITION, true)];
            var r := AfterConfirm(images, 2, upload, true);
            r.1 == DatabaseError && !HasPrimary(r.0) && 1 in r.0
  {
    var images: Images := map[1 := Image(MAX_POSITION, true)];
    assert 1 in images;
    NextIsUnused(images);
    assert 1 in AfterConfirm(images, 2, upload, true).0;
  }

  /** One primary image at position 0; confirming a primary one with a key of more than 255 characters
      fails likewise. */
  lemma LongKeyCounterexample(key: string)
    requires |key| > MAX_KEY
    ensures var images: Images := map[1 := Image(0, true)];
            var r := AfterConfirm(images, 2, Upload(key, 1, 1), true);
            r.1 == DatabaseError && !HasPrimary(r.0) && 1 in r.0
  {
    var images: Images := map[1 := Image(0, true)];
    assert 1 in images;
    assert 1 in AfterConfirm(images, 2, Upload(key, 1, 1), true).0;
  }

  /** Two images at positions 0 and 1; reordering only the second to the front meets the first. */
  lemma PartialReorderCounterexample()
    ensures var images: Images := map[1 := Image(0, true), 2 := Image(1, false)];
            Valid(images) && AfterReorder(images, [2]) == (images, DatabaseError)
  {
    var images: Images := map[1 := Image(0, true), 2 := Image(1, false)];
    assert 1 in images && 1 !in [2] && images[1].position == 0;
    assert ListsImages(images, [2]) && !NoClash(images, [2]);
  }

  // ---- The two passes of a reorder ----

  /** The images of the item whose id is in the list. */
  function Found(images: Images, ids: seq<ImageId>): set<ImageId> {
    set x | x in images && x in ids
  }

  /** A list has at most as many elements as positions, and as many only without repetition. */
  lemma {:induction false} ElementsFewer(ids: seq<ImageId>)
    ensures |Elements(ids)| <= |ids|
    ensures |Elements(ids)| == |ids| ==> Distinct(ids)
  {
    if ids == [] {
      assert Elements(ids) == {};
    } else {
      var init, last := ids[..|ids| - 1], ids[|ids| - 1];
      ElementsFewer(init);
      assert ids == init + [last];
      assert Elements(ids) == Elements(init) + {last};
      if last in init {
        assert Elements(ids) == Elements(init);
      } else {
        forall i, j | 0 <= i < j < |ids| && Distinct(init)
          ensures ids[i] != ids[j]
        {
          assert ids[i] == init[i];
        }
      }
    }
  }

  /** The length check of the view passes exactly when the ids are distinct images of the item. */
  lemma LengthCheck(images: Images, ids: seq<ImageId>)
    ensures |Found(images, ids)| == |ids| <==> ListsImages(images, ids)
  {
    var found := Found(images, ids);
    assert found <= Elements(ids);
    ElementsFewer(ids);
    if ListsImages(images, ids) {
      DistinctCardinality(ids);
      assert found == Elements(ids);
    }
    SubsetCardinality(found, Elements(ids));
    if |found| == |ids| {
      assert found == Elements(ids);
      forall x | x in ids ensures x in images {
        assert x in found;
      }
    }
  }

  /** A refused reorder leaves everything as it was. */
  lemma ReorderIsAllOrNothing(images: Images, ids: seq<ImageId>)
    ensures var (r, outcome) := AfterReorder(images, ids);
            && (outcome != Done ==> r == images)
            && (outcome == Invalid <==> ids == [])
            && (outcome == NotFound <==> ids != [] && |Found(images, ids)| != |ids|)
  {
    LengthCheck(images, ids);
  }

  /** Parking the i-th listed image meets nobody. */
  ghost predicate ParkClear(images: Images, ids: seq<ImageId>, i: int)
    requires ListsImages(images, ids)
  {
    && REORDER_OFFSET + i <= MAX_POSITION
    && (forall x :: x in images && x !in ids ==> images[x].position != REORDER_OFFSET + i)
    && (forall j :: 0 <= j < |ids| && i < j ==> images[ids[j]].position != REORDER_OFFSET + i)
  }

  /** Landing the i-th listed image meets nobody. */
  ghost predicate LandClear(images: Images, ids: seq<ImageId>, i: int) {
    forall x :: x in images && x !in ids ==> images[x].position != i
  }

  lemma NoClashIff(images: Images, ids: seq<ImageId>)
    requires ListsImages(images, ids) && ids != []
    ensures NoClash(images, ids) <==>
            forall i :: 0 <= i < |ids| ==> ParkClear(images, ids, i) && LandClear(images, ids, i)
  {
    if forall i :: 0 <= i < |ids| ==> ParkClear(images, ids, i) && LandClear(images, ids, i) {
      assert ParkClear(images, ids, |ids| - 1);
      forall x | x in images && x !in ids
        ensures images[x].position >= |ids| && !(REORDER_OFFSET <= images[x].position < REORDER_OFFSET + |ids|)
      {
        var p: int := images[x].position;
        assert p < |ids| ==> LandClear(images, ids, p);
        assert REORDER_OFFSET <= p < REORDER_OFFSET + |ids| ==> ParkClear(images, ids, p - REORDER_OFFSET);
      }
      forall j | 0 <= j < |ids|
        ensures !(REORDER_OFFSET <= images[ids[j]].position < REORDER_OFFSET + j)
      {
        var p: int := images[ids[j]].position;
        assert 0 <= p - REORDER_OFFSET < j ==> ParkClear(images, ids, p - REORDER_OFFSET);
      }
    }
  }

  /** Where every image other than the i-th stands when the first i are parked. */
  lemma ParkIffClear(images: Images, ids: seq<ImageId>, i: nat)
    requires ListsImages(images, ids) && i < |ids|
    ensures ParkClear(images, ids, i) <==>
            && REORDER_OFFSET + i <= MAX_POSITION
            && !Taken(Placed(images, ids, i, REORDER_OFFSET), ids[i], REORDER_OFFSET + i)
  {
    var now := Placed(images, ids, i, REORDER_OFFSET);
    PlacedOther(images, ids, i, REORDER_OFFSET);
    forall j | 0 <= j < |ids|
      ensures ids[j] in now
      ensures now[ids[j]].position == REORDER_OFFSET + i <==> j >= i && images[ids[j]].position == REORDER_OFFSET + i
    {
      PlacedListed(images, ids, i, REORDER_OFFSET, j);
    }
    if Taken(now, ids[i], REORDER_OFFSET + i) {
      var y :| y in now && y != ids[i] && now[y].position == REORDER_OFFSET + i;
      if y in ids {
        var j :| 0 <= j < |ids| && ids[j] == y;
        assert images[ids[j]].position == REORDER_OFFSET + i && j > i;
      }
    } else {
      forall x | x in images && x !in ids
        ensures images[x].position != REORDER_OFFSET + i
      {
        assert x in now && x != ids[i];
      }
      forall j | 0 <= j < |ids| && i < j
        ensures images[ids[j]].position != REORDER_OFFSET + i
      {
        assert ids[j] in now && ids[j] != ids[i];
      }
    }
  }

  /** Where they stand when all are parked and the first i have landed. */
  lemma LandIffClear(images: Images, parked: Images, ids: seq<ImageId>, i: nat)
    requires ListsImages(images, ids) && i < |ids|
    requires parked == Placed(images, ids, |ids|, REORDER_OFFSET) && ListsImages(parked, ids)
    ensures LandClear(images, ids, i) <==> !Taken(Placed(parked, ids, i, 0), ids[i], i)
  {
    var now := Placed(parked, ids, i, 0);
    PlacedOther(images, ids, |ids|, REORDER_OFFSET);
    PlacedOther(parked, ids, i, 0);
    forall j | 0 <= j < |ids|
      ensures ids[j] in now && now[ids[j]].position != i
    {
      PlacedListed(images, ids, |ids|, REORDER_OFFSET, j);
      PlacedListed(parked, ids, i, 0, j);
    }
    if Taken(now, ids[i], i) {
      var y :| y in now && y != ids[i] && now[y].position == i;
      assert y in images && images[y].position == i;
    } else {
      forall x | x in images && x !in ids
        ensures images[x].position != i
      {
        assert x in now && x != ids[i];
      }
    }
  }

  /** The first k parking writes meet nobody. */
  ghost predicate ParksClear(images: Images, ids: seq<ImageId>, k: nat)
    requires ListsImages(images, ids)
  {
    k == 0 || (ParksClear(images, ids, k - 1) && ParkClear(images, ids, k - 1))
  }

  ghost predicate LandsClear(images: Images, ids: seq<ImageId>, k: nat) {
    k == 0 || (LandsClear(images, ids, k - 1) && LandClear(images, ids, k - 1))
  }

  lemma {:induction false} ParksClearAll(images: Images, ids: seq<ImageId>, k: nat)
    requires ListsImages(images, ids)
    ensures ParksClear(images, ids, k) <==> forall i :: 0 <= i < k ==> ParkClear(images, ids, i)
  {
    if k > 0 {
      ParksClearAll(images, ids, k - 1);
    }
  }

  lemma {:induction false} LandsClearAll(images: Images, ids: seq<ImageId>, k: nat)
    ensures LandsClear(images, ids, k) <==> forall i :: 0 <= i < k ==> LandClear(images, ids, i)
  {
    if k > 0 {
      LandsClearAll(images, ids, k - 1);
    }
  }

  lemma PassesClear(images: Images, ids: seq<ImageId>)
    requires ListsImages(images, ids) && ids != []
    ensures NoClash(images, ids) <==> ParksClear(images, ids, |ids|) && LandsClear(images, ids, |ids|)
    ensures ParksClear(images, ids, |ids|) ==> REORDER_OFFSET + |ids| - 1 <= MAX_POSITION
  {
    NoClashIff(images, ids);
    ParksClearAll(images, ids, |ids|);
    LandsClearAll(images, ids, |ids|);
    assert ParksClear(images, ids, |ids|) ==> ParkClear(images, ids, |ids| - 1);
  }

  lemma ParkStep(images: Images, now: Images, ids: seq<ImageId>, i: nat)
    requires ListsImages(images, ids) && i < |ids| && now == Placed(images, ids, i, REORDER_OFFSET)
    requires ParksClear(images, ids, i)
    ensures ids[i] in now
    ensures if i + REORDER_OFFSET <= MAX_POSITION && !Taken(now, ids[i], i + REORDER_OFFSET)
            then ParksClear(images, ids, i + 1) else !ParksClear(images, ids, |ids|)
    ensures now[ids[i] := now[ids[i]].(position := i + REORDER_OFFSET)] == Placed(images, ids, i + 1, REORDER_OFFSET)
  {
    PlacedListed(images, ids, i, REORDER_OFFSET, i);
    ParkIffClear(images, ids, i);
    ParksClearAll(images, ids, |ids|);
  }

  lemma LandStep(images: Images, parked: Images, now: Images, ids: seq<ImageId>, i: nat)
    requires ListsImages(images, ids) && i < |ids| && REORDER_OFFSET + |ids| - 1 <= MAX_POSITION
    requires parked == Placed(images, ids, |ids|, REORDER_OFFSET) && ListsImages(parked, ids)
    requires now == Placed(parked, ids, i, 0)
    requires LandsClear(images, ids, i)
    ensures ids[i] in now
    ensures if i <= MAX_POSITION && !Taken(now, ids[i], i)
            then LandsClear(images, ids, i + 1) else !LandsClear(images, ids, |ids|)
    ensures now[ids[i] := now[ids[i]].(position := i)] == Placed(parked, ids, i + 1, 0)
  {
    PlacedListed(parked, ids, i, 0, i);
    LandIffClear(images, parked, ids, i);
    LandsClearAll(images, ids, |ids|);
  }

  lemma ParkedLists(images: Images, ids: seq<ImageId>)
    requires ListsImages(images, ids)
    ensures ListsImages(Placed(images, ids, |ids|, REORDER_OFFSET), ids)
  {
    PlacedOther(images, ids, |ids|, REORDER_OFFSET);
  }

  lemma TwicePlaced(images: Images, parked: Images, ids: seq<ImageId>)
    requires ListsImages(images, ids) && ListsImages(parked, ids)
    requires parked == Placed(images, ids, |ids|, REORDER_OFFSET)
    ensures Placed(parked, ids, |ids|, 0) == Placed(images, ids, |ids|, 0)
  {
    PlacedOther(images, ids, |ids|, REORDER_OFFSET);
    PlacedOther(images, ids, |ids|, 0);
    PlacedOther(parked, ids, |ids|, 0);
    forall x | x in images
      ensures Placed(parked, ids, |ids|, 0)[x] == Placed(images, ids, |ids|, 0)[x]
    {
      if x in ids {
        var j :| 0 <= j < |ids| && ids[j] == x;
        PlacedListed(images, ids, |ids|, REORDER_OFFSET, j);
        PlacedListed(images, ids, |ids|, 0, j);
        PlacedListed(parked, ids, |ids|, 0, j);
      }
    }
  }

  lemma DemotionKeepsPositions(images: Images, id: ImageId, position: int)
    ensures Taken(DemotedExcept(images, id), id, position) <==> Taken(images, id, position)
  {
    if Taken(images, id, position) {
      var y :| y in images && y != id && images[y].position == position;
      assert y in DemotedExcept(images, id);
    }
  }

  lemma FirstUnique(images: Images, x: ImageId, y: ImageId)
    requires Valid(images) && IsFirst(images, x) && IsFirst(images, y)
    ensures x == y
  {
    assert Apart(images, x, y);
  }

  lemma RemoveKeepsValid(images: Images, id: ImageId)
    requires Valid(images)
    ensures Valid(images - {id})
  {
    forall x, y | x in images - {id} && y in images - {id}
      ensures Apart(images - {id}, x, y)
    {
      assert Apart(images, x, y);
    }
  }

  lemma MoveKeepsValid(images: Images, id: ImageId, position: nat)
    requires Valid(images) && id in images && position <= MAX_POSITION && !Taken(images, id, position)
    ensures Valid(images[id := images[id].(position := position)])
  {
    var r := images[id := images[id].(position := position)];
    forall x, y | x in r && y in r
      ensures Apart(r, x, y)
    {
      assert Apart(images, x, y);
    }
  }

  // ---- The views ----

  class Item {
    var images: Images

    constructor ()
      ensures images == map[]
    {
      images := map[];
    }

    /** One row update; the database refuses a position out of range or in use. */
    method SavePosition(id: ImageId, position: nat) returns (ok: bool)
      requires Valid(images) && id in images
      modifies this
      ensures Valid(images)
      ensures ok <==> position <= MAX_POSITION && !Taken(old(images), id, position)
      ensures images == if ok then old(images)[id := old(images)[id].(position := position)] else old(images)
    {
      ok := position <= MAX_POSITION && !Taken(images, id, position);
      if ok {
        MoveKeepsValid(images, id, position);
        images := images[id := images[id].(position := position)];
      }
    }

    /** The first pass: every listed image beyond the positions in use. */
    method ParkAll(ids: seq<ImageId>) returns (ok: bool)
      requires Valid(images) && ListsImages(images, ids)
      modifies this
      ensures Valid(images)
      ensures ok <==> ParksClear(old(images), ids, |ids|)
      ensures ok ==> images == Placed(old(images), ids, |ids|, REORDER_OFFSET)
    {
      ghost var saved := images;
      for i := 0 to |ids|
        invariant Valid(images) && images == Placed(saved, ids, i, REORDER_OFFSET)
        invariant ParksClear(saved, ids, i)
      {
        ParkStep(saved, images, ids, i);
        var saved1 := SavePosition(ids[i], i + REORDER_OFFSET);
        if !saved1 {
          return false;
        }
      }
      ok := true;
    }

    /** The second pass: every listed image at its index. */
    method LandAll(ids: seq<ImageId>, ghost saved: Images) returns (ok: bool)
      requires Valid(images) && ListsImages(saved, ids) && REORDER_OFFSET + |ids| - 1 <= MAX_POSITION
      requires images == Placed(saved, ids, |ids|, REORDER_OFFSET)
      modifies this
      ensures Valid(images)
      ensures ok <==> LandsClear(saved, ids, |ids|)
      ensures ok ==> images == Placed(saved, ids, |ids|, 0)
    {
      ghost var parked := images;
      ParkedLists(saved, ids);
      for i := 0 to |ids|
        invariant Valid(images) && images == Placed(parked, ids, i, 0)
        invariant LandsClear(saved, ids, i)
      {
        LandStep(saved, parked, images, ids, i);
        var saved1 := SavePosition(ids[i], i);
        if !saved1 {
          return false;
        }
      }
      TwicePlaced(saved, parked, ids);
      ok := true;
    }

    method ReorderImages(ids: seq<ImageId>) returns (outcome: Outcome)
      requires Valid(images)
      modifies this
      ensures Valid(images)
      ensures (images, outcome) == AfterReorder(old(images), ids)
    {
      if ids == [] {
        return Invalid;
      }
      var found := Found(images, ids);
      LengthCheck(images, ids);
      if |found| != |ids| {
        return NotFound;
      }
      var saved := images;
      PassesClear(saved, ids);
      var parked := ParkAll(ids);
      if !parked {
        images := saved;
        return DatabaseError;
      }
      var landed := LandAll(ids, saved);
      if !landed {
        images := saved;
        return DatabaseError;
      }
      outcome := Done;
    }

    /** `order_by("-position").first()`. */
    method HighestPosition() returns (highest: Option<nat>)
      ensures highest.None? <==> images == map[]
      ensures highest.Some? ==> highest.value + 1 == NextPosition(images)
    {
      highest := None;
      var todo := images.Keys;
      while todo != {}
        invariant todo <= images.Keys
        invariant highest.None? <==> todo == images.Keys
        invariant highest.Some? ==> exists x :: x in images && images[x].position == highest.value
        invariant highest.Some? ==> forall y :: y in images && y !in todo ==> images[y].position <= highest.value
        decreases todo
      {
        var x :| x in todo;
        if highest.None? || images[x].position > highest.value {
          highest := Some(images[x].position);
        }
        todo := todo - {x};
      }
      assert images == map[] <==> images.Keys == {};
    }

    method ConfirmImage(id: ImageId, upload: Upload, requested: bool) returns (outcome: Outcome)
      requires Valid(images) && id !in images
      modifies this
      ensures (images, outcome) == AfterConfirm(old(images), id, upload, requested)
      ensures Valid(images)
    {
      ConfirmKeepsValid(images, id, upload, requested);
      if !upload.Accepted() {
        return Invalid;
      }
      var highest := HighestPosition();
      var primary := requested || images == map[];
      if primary {
        images := Demoted(images);
      }
      var position := if highest.Some? then highest.value + 1 else 0;
      if !upload.RowFits() || position > MAX_POSITION {
        return DatabaseError;
      }
      images := images[id := Image(position, primary)];
      outcome := Done;
    }

    method PatchImage(id: ImageId, isPrimary: Json, position: Json) returns (outcome: Outcome)
      requires Valid(images)
      modifies this
      ensures (images, outcome) == AfterPatch(old(images), id, isPrimary, position)
      ensures Valid(images)
    {
      PatchKeepsValid(images, id, isPrimary, position);
      if id !in images {
        return NotFound;
      }
      var saved := images;
      var image := images[id];
      if isPrimary != Null {
        if !isPrimary.Bool? {
          return Invalid;
        }
        if isPrimary.b {
          images := DemotedExcept(images, id);
        }
        image := image.(primary := isPrimary.b);
      }
      if position != Null {
        var at := PositionOf(position);
        if at.None? || at.value < 0 {
          images := saved;
          return Invalid;
        }
        image := image.(position := at.value);
      }
      DemotionKeepsPositions(saved, id, image.position);
      if image.position > MAX_POSITION || Taken(images, id, image.position) {
        images := saved;
        return DatabaseError;
      }
      images := images[id := image];
      outcome := Done;
    }

    /** `order_by("position").first()`. */
    method LowestImage() returns (lowest: ImageId)
      requires Valid(images) && images != map[]
      ensures lowest == First(images)
    {
      lowest :| lowest in images;
      var todo := images.Keys - {lowest};
      while todo != {}
        invariant todo <= images.Keys && lowest in images
        invariant forall y :: y in images && y !in todo ==> images[lowest].position <= images[y].position
        decreases todo
      {
        var x :| x in todo;
        if images[x].position < images[lowest].position {
          lowest := x;
        }
        todo := todo - {x};
      }
      FirstUnique(images, lowest, First(images));
    }

    method DeleteImage(id: ImageId) returns (outcome: Outcome)
      requires Valid(images)
      modifies this
      ensures (images, outcome) == AfterDelete(old(images), id)
      ensures Valid(images)
    {
      DeleteKeepsValid(images, id);
      if id !in images {
        return NotFound;
      }
      var wasPrimary := images[id].primary;
      RemoveKeepsValid(images, id);
      images := images - {id};
      if wasPrimary && images != map[] {
        var replacement := LowestImage();
        images := images[replacement := images[replacement].(primary := true)];
      }
      outcome := Done;
    }
  }
}
