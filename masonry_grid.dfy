/**
 * The state of the MasonryGrid component (looknest/src/components/MasonryGrid.js) and the
 * handlers that update it. Each setter call of the component is a field assignment here.
 */
module MasonryGridState {
  import opened Wrappers
  import opened Gallery
  import opened Subsequences

  class MasonryGrid {
    var allPhotos: seq<Photo>
    var photos: seq<Photo>
    var loading: bool
    var showCarousel: bool
    var currentPhoto: Option<Photo>
    var currentImageIndex: nat

    /**
     * The shown photos are always an order-preserving subsequence of the fetched ones, and
     * the image index is in bounds whenever the open photo has any image.
     */
    ghost predicate Valid()
      reads this
    {
      && IsSubsequence(photos, allPhotos)
      && (currentPhoto.Some? && currentPhoto.value.imageUrl != [] ==>
            currentImageIndex < |currentPhoto.value.imageUrl|)
    }

    /** The initial state of the six useState hooks (lines 5-10). */
    constructor ()
      ensures Valid()
      ensures allPhotos == [] && photos == [] && loading
      ensures !showCarousel && currentPhoto == None && currentImageIndex == 0
    {
      allPhotos := [];
      photos := [];
      loading := true;
      showCarousel := false;
      currentPhoto := None;
      currentImageIndex := 0;
      SubsequenceReflexive<Photo>([]);
    }

    /** fetchPhotos (lines 30-41); data is the decoded response, None when the request failed. */
    method FetchCompleted(data: Option<seq<Photo>>)
      requires Valid()
      modifies this
      ensures Valid()
      ensures !loading
      ensures data.Some? ==> allPhotos == data.value && photos == data.value
      ensures data.None? ==> allPhotos == old(allPhotos) && photos == old(photos)
      ensures showCarousel == old(showCarousel) && currentPhoto == old(currentPhoto)
      ensures currentImageIndex == old(currentImageIndex)
    {
      if data.Some? {
        allPhotos := data.value;
        photos := data.value;
        SubsequenceReflexive(data.value);
      }
      loading := false;
    }

    /** The effect that runs whenever searchQuery or allPhotos changes (lines 16-28). */
    method ApplySearch(searchQuery: string)
      requires Valid()
      modifies this
      ensures Valid()
      ensures photos == Search(allPhotos, searchQuery)
      ensures allPhotos == old(allPhotos) && loading == old(loading) && showCarousel == old(showCarousel)
      ensures currentPhoto == old(currentPhoto) && currentImageIndex == old(currentImageIndex)
    {
      if Trim(searchQuery) == "" {
        photos := allPhotos;
      } else {
        var filtered := Filter(allPhotos, searchQuery);
        photos := filtered;
      }
      SearchSubsequenceIdempotent(allPhotos, searchQuery);
    }

    /** handleImageClick (lines 43-47). */
    method OpenPhoto(photo: Photo)
      requires Valid()
      modifies this
      ensures Valid()
      ensures currentPhoto == Some(photo) && currentImageIndex == 0 && showCarousel
      ensures allPhotos == old(allPhotos) && photos == old(photos) && loading == old(loading)
    {
      currentPhoto := Some(photo);
      currentImageIndex := 0;
      showCarousel := true;
    }

    /** The overlay and the close button (lines 110, 112). */
    method CloseCarousel()
      requires Valid()
      modifies this
      ensures Valid()
      ensures !showCarousel
      ensures allPhotos == old(allPhotos) && photos == old(photos) && loading == old(loading)
      ensures currentPhoto == old(currentPhoto) && currentImageIndex == old(currentImageIndex)
    {
      showCarousel := false;
    }

    /** The "previous" button, rendered only for an open photo with several images (lines 109, 119-126). */
    method ShowPrevious()
      requires Valid()
      requires showCarousel && currentPhoto.Some? && |currentPhoto.value.imageUrl| > 1
      modifies this
      ensures Valid()
      ensures showCarousel == old(showCarousel) && currentPhoto == old(currentPhoto)
      ensures currentImageIndex == PrevIndex(old(currentImageIndex), |currentPhoto.value.imageUrl|)
      ensures currentImageIndex < |currentPhoto.value.imageUrl|
      ensures allPhotos == old(allPhotos) && photos == old(photos) && loading == old(loading)
    {
      currentImageIndex := PrevIndex(currentImageIndex, |currentPhoto.value.imageUrl|);
    }

    /** The "next" button (lines 127-132). */
    method ShowNext()
      requires Valid()
      requires showCarousel && currentPhoto.Some? && |currentPhoto.value.imageUrl| > 1
      modifies this
      ensures Valid()
      ensures showCarousel == old(showCarousel) && currentPhoto == old(currentPhoto)
      ensures currentImageIndex == NextIndex(old(currentImageIndex), |currentPhoto.value.imageUrl|)
      ensures currentImageIndex < |currentPhoto.value.imageUrl|
      ensures allPhotos == old(allPhotos) && photos == old(photos) && loading == old(loading)
    {
      currentImageIndex := NextIndex(currentImageIndex, |currentPhoto.value.imageUrl|);
    }

    /** The indicator of image index, one per image (lines 133-141). */
    method SelectImage(index: nat)
      requires Valid()
      requires showCarousel && currentPhoto.Some? && |currentPhoto.value.imageUrl| > 1
      requires index < |currentPhoto.value.imageUrl|
      modifies this
      ensures Valid()
      ensures currentImageIndex == index
      ensures allPhotos == old(allPhotos) && photos == old(photos) && loading == old(loading)
      ensures showCarousel == old(showCarousel) && currentPhoto == old(currentPhoto)
    {
      currentImageIndex := index;
    }
  }

  /** Opening a photo with three images and pressing "next" three times comes back to the first. */
  method CarouselRoundTrip(grid: MasonryGrid, photo: Photo)
    requires grid.Valid() && |photo.imageUrl| == 3
    modifies grid
    ensures grid.Valid() && grid.currentPhoto == Some(photo) && grid.currentImageIndex == 0
  {
    grid.OpenPhoto(photo);
    grid.ShowNext();
    grid.ShowNext();
    grid.ShowNext();
  }

  /** With three images, "next" on the last image shows the first. */
  method NextFromLastImage(grid: MasonryGrid)
    requires grid.Valid() && grid.showCarousel && grid.currentPhoto.Some?
    requires |grid.currentPhoto.value.imageUrl| == 3 && grid.currentImageIndex == 2
    modifies grid
    ensures grid.Valid() && grid.currentPhoto == old(grid.currentPhoto) && grid.currentImageIndex == 0
  {
    grid.ShowNext();
  }

  /** With three images, "previous" on the first image shows the last. */
  method PreviousFromFirstImage(grid: MasonryGrid)
    requires grid.Valid() && grid.showCarousel && grid.currentPhoto.Some?
    requires |grid.currentPhoto.value.imageUrl| == 3 && grid.currentImageIndex == 0
    modifies grid
    ensures grid.Valid() && grid.currentPhoto == old(grid.currentPhoto) && grid.currentImageIndex == 2
  {
    grid.ShowPrevious();
  }
}
