/** Navigation of the application: which page is shown, the deck it is
    about, and whether the "new deck" dialog is open. */
module AppModel {
  import opened Wrappers
  import opened CardTypes

  /** The deck list, one deck's page, and a study session. */
  datatype View = DecksView | DeckView | StudyView

  class App {
    var currentView: View
    var selectedDeck: Option<Deck>
    var showCreateDeckModal: bool

    /** A deck page or a session is always about some deck. */
    ghost predicate Coherent()
      reads this
    {
      currentView != DecksView ==> selectedDeck.Some?
    }

    constructor()
      ensures currentView == DecksView && selectedDeck == None && !showCreateDeckModal
      ensures Coherent()
    {
      currentView := DecksView;
      selectedDeck := None;
      showCreateDeckModal := false;
    }

    /** The raw view setter: coherence survives exactly when the target is
        the deck list or a deck is already selected. */
    method SetCurrentView(view: View)
      modifies this
      ensures currentView == view
      ensures selectedDeck == old(selectedDeck) && showCreateDeckModal == old(showCreateDeckModal)
      ensures Coherent() <==> view == DecksView || selectedDeck.Some?
    {
      currentView := view;
    }

    /** `selectDeck`: open the deck's page. */
    method SelectDeck(deck: Deck)
      modifies this
      ensures currentView == DeckView && selectedDeck == Some(deck)
      ensures showCreateDeckModal == old(showCreateDeckModal)
      ensures Coherent()
    {
      selectedDeck := Some(deck);
      currentView := DeckView;
    }

    /** `startStudy`: begin a session on the deck. */
    method StartStudy(deck: Deck)
      modifies this
      ensures currentView == StudyView && selectedDeck == Some(deck)
      ensures showCreateDeckModal == old(showCreateDeckModal)
      ensures Coherent()
    {
      selectedDeck := Some(deck);
      currentView := StudyView;
    }

    /** `backToDecks`: the deck list, with the selection cleared. */
    method BackToDecks()
      modifies this
      ensures currentView == DecksView && selectedDeck == None
      ensures showCreateDeckModal == old(showCreateDeckModal)
      ensures Coherent()
    {
      selectedDeck := None;
      currentView := DecksView;
    }

    /** `backToDeck`: the selected deck's page; the selection is kept, so
        coming back from a deck page or a session stays coherent. */
    method BackToDeck()
      modifies this
      ensures currentView == DeckView
      ensures selectedDeck == old(selectedDeck) && showCreateDeckModal == old(showCreateDeckModal)
      ensures old(Coherent()) && old(currentView) != DecksView ==> Coherent()
    {
      currentView := DeckView;
    }

    method OpenCreateDeckModal()
      modifies this
      ensures showCreateDeckModal
      ensures currentView == old(currentView) && selectedDeck == old(selectedDeck)
    {
      showCreateDeckModal := true;
    }

    method CloseCreateDeckModal()
      modifies this
      ensures !showCreateDeckModal
      ensures currentView == old(currentView) && selectedDeck == old(selectedDeck)
    {
      showCreateDeckModal := false;
    }
  }
}
